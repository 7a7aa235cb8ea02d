/** Password login as a step system: any number of attempts, each moving through
    allow -> acquire a bcrypt slot -> verify -> release -> record (internal/server/handlers_auth.go),
    interleaved at will over one shared limiter and one shared semaphore. */
module LoginProtocol {
  import L = LoginLimiter

  /** An attempt that passed `allow` and has not finished. */
  datatype Phase = Admitted | Verifying | Judged(ok: bool)

  datatype Flight = Flight(ip: string, phase: Phase)

  datatype State = State(limiter: L.State, occupied: int, flights: map<int, Flight>)

  datatype Params = Params(limiter: L.Params, capacity: int)

  datatype Event =
    | Begin(id: int, ip: string)        // ask the limiter
    | Abandon(id: int)                  // bad body, config error, or a catalog without password
    | NoPassword(id: int)               // password required but none stored: a recorded failure
    | Acquire(id: int)                  // a verification slot was free
    | Cancel(id: int)                   // the client left while waiting
    | Verify(id: int, ok: bool)         // compare the password and give the slot back
    | Record(id: int)                   // tell the limiter the outcome

  datatype Timed = Timed(at: int, event: Event)

  predicate InPhase(st: State, id: int, phase: Phase) {
    id in st.flights && st.flights[id].phase == phase
  }

  predicate Enabled(p: Params, st: State, e: Event) {
    match e
    case Begin(id, _) => id !in st.flights
    case Abandon(id) => InPhase(st, id, Admitted)
    case NoPassword(id) => InPhase(st, id, Admitted)
    case Acquire(id) => InPhase(st, id, Admitted) && st.occupied < p.capacity
    case Cancel(id) => InPhase(st, id, Admitted)
    case Verify(id, _) => InPhase(st, id, Verifying)
    case Record(id) => id in st.flights && st.flights[id].phase.Judged?
  }

  function Move(st: State, id: int, phase: Phase): State
    requires id in st.flights
  {
    st.(flights := st.flights[id := Flight(st.flights[id].ip, phase)])
  }

  function Finish(st: State, id: int): State {
    st.(flights := st.flights - {id})
  }

  function Released(occupied: int): int {
    if occupied > 0 then occupied - 1 else occupied
  }

  function Next(p: Params, st: State, t: Timed): State
    requires Enabled(p, st, t.event)
  {
    match t.event
    case Begin(id, ip) =>
      var swept := L.Swept(p.limiter, st.limiter, t.at);
      if L.Locked(swept, ip, t.at) then st.(limiter := swept)
      else st.(limiter := swept, flights := st.flights[id := Flight(ip, Admitted)])
    case Abandon(id) => Finish(st, id)
    case NoPassword(id) => Finish(st, id).(limiter := L.Failed(p.limiter, st.limiter, st.flights[id].ip, t.at))
    case Acquire(id) => Move(st, id, Verifying).(occupied := st.occupied + 1)
    case Cancel(id) => Finish(st, id)
    case Verify(id, ok) => Move(st, id, Judged(ok)).(occupied := Released(st.occupied))
    case Record(id) =>
      var ip := st.flights[id].ip;
      Finish(st, id).(limiter := if st.flights[id].phase.ok then L.Succeeded(st.limiter, ip)
                                 else L.Failed(p.limiter, st.limiter, ip, t.at))
  }

  /** A run: every event is enabled where it happens and clock readings are nondecreasing in lock order. */
  predicate IsRun(p: Params, st: State, clock: int, run: seq<Timed>)
    decreases |run|
  {
    run == [] ||
    (clock <= run[0].at && Enabled(p, st, run[0].event) && IsRun(p, Next(p, st, run[0]), run[0].at, run[1..]))
  }

  function Final(p: Params, st: State, clock: int, run: seq<Timed>): State
    requires IsRun(p, st, clock, run)
    decreases |run|
  {
    if run == [] then st else Final(p, Next(p, st, run[0]), run[0].at, run[1..])
  }

  predicate RecordsFailure(st: State, e: Event, ip: string) {
    || (e.NoPassword? && e.id in st.flights && st.flights[e.id].ip == ip)
    || (e.Record? && e.id in st.flights && st.flights[e.id] == Flight(ip, Judged(false)))
  }

  predicate RecordsSuccess(st: State, e: Event, ip: string) {
    e.Record? && e.id in st.flights && st.flights[e.id] == Flight(ip, Judged(true))
  }

  /** Attempts of `ip` past `allow` and not yet finished. */
  function InFlight(st: State, ip: string): set<int> {
    set id | id in st.flights && st.flights[id].ip == ip
  }

  /** How many failures of `ip` the run records at times in [lo, hi]. */
  function Failures(p: Params, st: State, clock: int, run: seq<Timed>, ip: string, lo: int, hi: int): nat
    requires IsRun(p, st, clock, run)
    decreases |run|
  {
    if run == [] then 0 else
      (if lo <= run[0].at <= hi && RecordsFailure(st, run[0].event, ip) then 1 else 0)
      + Failures(p, Next(p, st, run[0]), run[0].at, run[1..], ip, lo, hi)
  }

  /** In [lo, hi] the run records no success of `ip` and never has more than `width` of its attempts in flight. */
  predicate Quiet(p: Params, st: State, clock: int, run: seq<Timed>, ip: string, lo: int, hi: int, width: int)
    requires IsRun(p, st, clock, run)
    decreases |run|
  {
    run == [] ||
    ((lo <= run[0].at <= hi ==> !RecordsSuccess(st, run[0].event, ip) && |InFlight(st, ip)| <= width)
     && Quiet(p, Next(p, st, run[0]), run[0].at, run[1..], ip, lo, hi, width))
  }

  // ----- the lockout bounds failures -----

  /** `n` failures of `ip` were recorded since `lo`.  Either the record still holds them all, or a lockout that
      outlasts `hi` is armed and only attempts already in flight can still fail. */
  predicate LockInv(p: Params, st: State, ip: string, lo: int, hi: int, width: int, n: nat) {
    n > 0 ==>
      && ip in st.limiter.attempts
      && st.limiter.attempts[ip].lastSeen >= lo
      && (|| n <= st.limiter.attempts[ip].failures < p.limiter.maxFailures
          || (st.limiter.attempts[ip].lockedUntil > hi
              && n + |InFlight(st, ip)| <= p.limiter.Threshold() + width - 1))
  }

  lemma InFlightFinish(st: State, id: int, ip: string)
    requires id in st.flights && st.flights[id].ip == ip
    ensures |InFlight(Finish(st, id), ip)| == |InFlight(st, ip)| - 1
  {
    assert InFlight(Finish(st, id), ip) == InFlight(st, ip) - {id};
  }

  /** A step that records no failure of `ip` keeps the invariant. */
  lemma OtherStep(p: Params, st: State, t: Timed, ip: string, lo: int, hi: int, width: int, n: nat)
    requires Enabled(p, st, t.event) && lo <= t.at <= hi < lo + p.limiter.lockout
    requires !RecordsFailure(st, t.event, ip) && !RecordsSuccess(st, t.event, ip)
    requires LockInv(p, st, ip, lo, hi, width, n)
    ensures LockInv(p, Next(p, st, t), ip, lo, hi, width, n)
  {
    var st' := Next(p, st, t);
    if n > 0 {
      assert st'.limiter.attempts[ip] == st.limiter.attempts[ip];
      if t.event.Begin? && t.event.ip == ip {
        if st.limiter.attempts[ip].lockedUntil > hi {
          assert InFlight(st', ip) == InFlight(st, ip);
        }
      } else if t.event.id in st.flights && st.flights[t.event.id].ip == ip && t.event.id !in st'.flights {
        InFlightFinish(st, t.event.id, ip);
      } else {
        assert InFlight(st', ip) == InFlight(st, ip);
      }
    }
  }

  lemma FailureStep(p: Params, st: State, t: Timed, ip: string, lo: int, hi: int, width: int, n: nat)
    requires Enabled(p, st, t.event) && lo <= t.at <= hi < lo + p.limiter.lockout
    requires RecordsFailure(st, t.event, ip) && |InFlight(st, ip)| <= width
    requires LockInv(p, st, ip, lo, hi, width, n)
    requires ip in st.limiter.attempts ==> 0 <= st.limiter.attempts[ip].failures < p.limiter.Threshold()
    ensures LockInv(p, Next(p, st, t), ip, lo, hi, width, n + 1)
  {
    InFlightFinish(st, t.event.id, ip);
    assert InFlight(Next(p, st, t), ip) == InFlight(Finish(st, t.event.id), ip);
  }

  /** Counters stay below the threshold: reaching it resets them. */
  predicate Counted(p: Params, st: State) {
    forall ip :: ip in st.limiter.attempts ==> 0 <= st.limiter.attempts[ip].failures < p.limiter.Threshold()
  }

  lemma {:induction false} LockoutBoundFrom(p: Params, st: State, clock: int, run: seq<Timed>, ip: string, lo: int,
                                            hi: int,
                                            width: int, n: nat)
    requires Counted(p, st) && IsRun(p, st, clock, run) && Quiet(p, st, clock, run, ip, lo, hi, width)
    requires width >= 1 && hi < lo + p.limiter.lockout
    requires n > 0 ==> lo <= clock
    requires LockInv(p, st, ip, lo, hi, width, n) && n <= p.limiter.Threshold() + width - 1
    ensures n + Failures(p, st, clock, run, ip, lo, hi) <= p.limiter.Threshold() + width - 1
    decreases |run|
  {
    if run != [] {
      var t, st' := run[0], Next(p, st, run[0]);
      assert Counted(p, st');
      if t.at < lo || hi < t.at {
        if hi < t.at {
          NoFailuresAfter(p, st, clock, run, ip, lo, hi);
        } else {
          LockoutBoundFrom(p, st', t.at, run[1..], ip, lo, hi, width, 0);
        }
      } else if RecordsFailure(st, t.event, ip) {
        FailureStep(p, st, t, ip, lo, hi, width, n);
        LockoutBoundFrom(p, st', t.at, run[1..], ip, lo, hi, width, n + 1);
      } else {
        OtherStep(p, st, t, ip, lo, hi, width, n);
        LockoutBoundFrom(p, st', t.at, run[1..], ip, lo, hi, width, n);
      }
    }
  }

  lemma {:induction false} NoFailuresAfter(p: Params, st: State, clock: int, run: seq<Timed>, ip: string, lo: int,
                                           hi: int)
    requires IsRun(p, st, clock, run) && (run == [] || hi < run[0].at)
    ensures Failures(p, st, clock, run, ip, lo, hi) == 0
    decreases |run|
  {
    if run != [] {
      NoFailuresAfter(p, Next(p, st, run[0]), run[0].at, run[1..], ip, lo, hi);
    }
  }

  /** Main result.  In every interleaved run, with sweeps firing anywhere, an interval shorter than the lockout that
      holds no success of an IP holds fewer than `maxFailures + width` of its failures, where `width` bounds the
      attempts of that IP in flight at once during the interval.  With serial attempts (`width == 1`) that is at
      most `maxFailures`. */
  lemma LockoutBound(p: Params, st: State, clock: int, run: seq<Timed>, ip: string, lo: int, hi: int, width: int)
    requires Counted(p, st) && IsRun(p, st, clock, run) && Quiet(p, st, clock, run, ip, lo, hi, width)
    requires width >= 1 && hi - lo < p.limiter.lockout
    ensures Failures(p, st, clock, run, ip, lo, hi) < p.limiter.Threshold() + width
  {
    LockoutBoundFrom(p, st, clock, run, ip, lo, hi, width, 0);
  }

  // ----- the bound is attained -----

  function Ids(k: nat): (r: set<int>)
    ensures |r| == k && forall id :: id in r <==> 0 <= id < k
  {
    if k == 0 then {} else Ids(k - 1) + {k - 1}
  }

  function Inflight(ip: string, k: nat): map<int, Flight> {
    map id | id in Ids(k) :: Flight(ip, Admitted)
  }

  /** `f` failures counted at time 0, `k` attempts in flight. */
  function Counter(ip: string, f: nat, k: nat): State {
    State(L.State(if f == 0 then map[] else map[ip := L.Attempt(f, 0, 0)], 0), 0, Inflight(ip, k))
  }

  /** `run` from `st`, all at time 0, keeps at most `width` attempts of `ip` in flight, records no success and `n`
      failures. */
  predicate Achieves(p: Params, st: State, run: seq<Timed>, ip: string, width: int, n: int)
    decreases |run|
  {
    if run == [] then n == 0
    else
      && run[0].at == 0 && Enabled(p, st, run[0].event)
      && !RecordsSuccess(st, run[0].event, ip) && |InFlight(st, ip)| <= width
      && Achieves(p, Next(p, st, run[0]), run[1..], ip, width,
                  if RecordsFailure(st, run[0].event, ip) then n - 1 else n)
  }

  lemma {:induction false} AchievesMeans(p: Params, st: State, run: seq<Timed>, ip: string, width: int, n: int)
    requires Achieves(p, st, run, ip, width, n)
    ensures IsRun(p, st, 0, run) && Quiet(p, st, 0, run, ip, 0, 0, width) && Failures(p, st, 0, run, ip, 0, 0) == n
    decreases |run|
  {
    if run != [] {
      AchievesMeans(p, Next(p, st, run[0]), run[1..], ip, width,
                    if RecordsFailure(st, run[0].event, ip) then n - 1 else n);
    }
  }

  /** Put an event in front of a run. */
  lemma Prepend(p: Params, st: State, e: Event, rest: seq<Timed>, ip: string, width: int, n: int)
    returns (run: seq<Timed>)
    requires Enabled(p, st, e) && Achieves(p, Next(p, st, Timed(0, e)), rest, ip, width, n)
    requires !RecordsSuccess(st, e, ip) && |InFlight(st, ip)| <= width
    ensures Achieves(p, st, run, ip, width, n + if RecordsFailure(st, e, ip) then 1 else 0)
  {
    run := [Timed(0, e)] + rest;
    assert run[1..] == rest;
  }

  lemma DrainStep(p: Params, st: State, ip: string, k: nat)
    requires k > 0 && st.flights == Inflight(ip, k)
    ensures Enabled(p, st, NoPassword(k - 1)) && RecordsFailure(st, NoPassword(k - 1), ip) && |InFlight(st, ip)| == k
    ensures Next(p, st, Timed(0, NoPassword(k - 1))).flights == Inflight(ip, k - 1)
  {
    assert InFlight(st, ip) == Ids(k);
    assert st.flights - {k - 1} == Inflight(ip, k - 1);
  }

  /** The `k` attempts in flight all fail. */
  lemma {:induction false} DrainAchieves(p: Params, st: State, ip: string, k: nat, width: int) returns (run: seq<Timed>)
    requires st.flights == Inflight(ip, k) && k <= width
    ensures Achieves(p, st, run, ip, width, k)
    decreases k
  {
    run := [];
    if k > 0 {
      DrainStep(p, st, ip, k);
      run := DrainAchieves(p, Next(p, st, Timed(0, NoPassword(k - 1))), ip, k - 1, width);
      run := Prepend(p, st, NoPassword(k - 1), run, ip, width, k - 1);
    }
  }

  lemma CrowdStep(p: Params, ip: string, f: nat, j: nat)
    requires p.limiter.lockout >= 1
    ensures Enabled(p, Counter(ip, f, j), Begin(j, ip))
    ensures Next(p, Counter(ip, f, j), Timed(0, Begin(j, ip))) == Counter(ip, f, j + 1)
    ensures |InFlight(Counter(ip, f, j), ip)| == j
  {
    var st := Counter(ip, f, j);
    assert InFlight(st, ip) == Ids(j);
    assert st.flights[j := Flight(ip, Admitted)] == Inflight(ip, j + 1);
    assert L.Swept(p.limiter, st.limiter, 0) == st.limiter;
  }

  lemma PrependBegin(p: Params, ip: string, f: nat, j: nat, rest: seq<Timed>, width: int, n: int)
    returns (run: seq<Timed>)
    requires p.limiter.lockout >= 1 && j <= width && Achieves(p, Counter(ip, f, j + 1), rest, ip, width, n)
    ensures Achieves(p, Counter(ip, f, j), run, ip, width, n)
  {
    CrowdStep(p, ip, f, j);
    run := Prepend(p, Counter(ip, f, j), Begin(j, ip), rest, ip, width, n);
  }

  lemma DrainCounter(p: Params, ip: string, f: nat, j: nat, width: int) returns (run: seq<Timed>)
    requires j <= width
    ensures Achieves(p, Counter(ip, f, j), run, ip, width, j)
  {
    run := DrainAchieves(p, Counter(ip, f, j), ip, j, width);
  }

  /** `k` attempts pass `allow` on top of the `j` in flight, then all fail. */
  lemma {:induction false} CrowdAchieves(p: Params, ip: string, f: nat, j: nat, k: nat, width: int)
    returns (run: seq<Timed>)
    requires p.limiter.lockout >= 1 && j + k <= width
    ensures Achieves(p, Counter(ip, f, j), run, ip, width, j + k)
    decreases k
  {
    if k == 0 {
      run := DrainCounter(p, ip, f, j, width);
    } else {
      run := CrowdAchieves(p, ip, f, j + 1, k - 1, width);
      run := PrependBegin(p, ip, f, j, run, width, j + k);
    }
  }

  lemma SerialStep(p: Params, ip: string, f: nat)
    requires p.limiter.lockout >= 1 && f + 1 < p.limiter.maxFailures
    ensures Next(p, Counter(ip, f, 1), Timed(0, NoPassword(0))) == Counter(ip, f + 1, 0)
    ensures Enabled(p, Counter(ip, f, 1), NoPassword(0)) && RecordsFailure(Counter(ip, f, 1), NoPassword(0), ip)
  {
    assert Inflight(ip, 1) - {0} == Inflight(ip, 0);
    assert Inflight(ip, 1)[0] == Flight(ip, Admitted);
  }

  lemma PrependFailure(p: Params, ip: string, f: nat, rest: seq<Timed>, width: int, n: int) returns (run: seq<Timed>)
    requires p.limiter.lockout >= 1 && f + 1 < p.limiter.maxFailures && width >= 1
    requires Achieves(p, Counter(ip, f + 1, 0), rest, ip, width, n)
    ensures Achieves(p, Counter(ip, f, 1), run, ip, width, n + 1)
  {
    CrowdStep(p, ip, f, 1);
    SerialStep(p, ip, f);
    run := Prepend(p, Counter(ip, f, 1), NoPassword(0), rest, ip, width, n);
  }

  /** `k` failed attempts, one after the other, in front of a run. */
  lemma {:induction false} SerialAchieves(p: Params, ip: string, f: nat, k: nat, width: int, tail: seq<Timed>, n: int)
    returns (run: seq<Timed>)
    requires p.limiter.lockout >= 1 && f + k < p.limiter.maxFailures && width >= 1
    requires Achieves(p, Counter(ip, f + k, 0), tail, ip, width, n)
    ensures Achieves(p, Counter(ip, f, 0), run, ip, width, k + n)
    decreases k
  {
    run := tail;
    if k > 0 {
      run := SerialAchieves(p, ip, f + 1, k - 1, width, tail, n);
      run := PrependFailure(p, ip, f, run, width, k - 1 + n);
      run := PrependBegin(p, ip, f, 0, run, width, k + n);
    }
  }

  /** The bound is attained: `maxFailures - 1` serial failures, then `width` attempts admitted together that all
      fail. */
  lemma LockoutBoundAttained(p: Params, ip: string, width: int) returns (run: seq<Timed>)
    requires p.limiter.maxFailures >= 1 && p.limiter.lockout >= 1 && width >= 1
    ensures var st := State(L.State(map[], 0), 0, map[]);
            && IsRun(p, st, 0, run) && Quiet(p, st, 0, run, ip, 0, 0, width)
            && Failures(p, st, 0, run, ip, 0, 0) == p.limiter.maxFailures + width - 1
  {
    var m := p.limiter.maxFailures;
    run := CrowdAchieves(p, ip, m - 1, 0, width, width);
    run := SerialAchieves(p, ip, 0, m - 1, width, run, width);
    assert Counter(ip, 0, 0) == State(L.State(map[], 0), 0, map[]);
    AchievesMeans(p, Counter(ip, 0, 0), run, ip, width, m - 1 + width);
  }

  // ----- nobody is locked out without having failed -----

  function FailuresOf(st: State, ip: string): int {
    if ip in st.limiter.attempts then st.limiter.attempts[ip].failures else 0
  }

  function LockedUntil(st: State, ip: string): int {
    if ip in st.limiter.attempts then st.limiter.attempts[ip].lockedUntil else 0
  }

  /** A lockout in force at the end of a run either was there at its start or was armed by a failure recorded
      exactly one lockout before it ends, when the run had brought the count to the threshold. */
  lemma {:induction false} LockoutJustified(p: Params, st: State, clock: int, run: seq<Timed>, ip: string, now: int)
    requires Counted(p, st) && IsRun(p, st, clock, run)
    requires forall i :: 0 <= i < |run| ==> run[i].at <= now
    ensures var r := Final(p, st, clock, run);
            var all := Failures(p, st, clock, run, ip, clock, now);
            var end := LockedUntil(r, ip);
            && 0 <= FailuresOf(r, ip) <= FailuresOf(st, ip) + all
            && (end == LockedUntil(st, ip) || end == 0
                || (FailuresOf(st, ip) + all >= p.limiter.Threshold()
                    && Failures(p, st, clock, run, ip, end - p.limiter.lockout, end - p.limiter.lockout) >= 1))
    decreases |run|
  {
    if run != [] {
      var st' := Next(p, st, run[0]);
      assert Counted(p, st');
      LockoutJustified(p, st', run[0].at, run[1..], ip, now);
      EarlierStart(p, st', run[0].at, run[1..], ip, clock, run[0].at, now);
    }
  }

  /** From a fresh limiter: an IP refused at `now` has failed at least `maxFailures` times, and once less than a
      lockout ago. */
  lemma NoLockoutWithoutFailures(p: Params, start: int, run: seq<Timed>, ip: string, now: int)
    requires IsRun(p, State(L.State(map[], start), 0, map[]), start, run)
    requires now >= 0 && forall i :: 0 <= i < |run| ==> run[i].at <= now
    requires L.Locked(Final(p, State(L.State(map[], start), 0, map[]), start, run).limiter, ip, now)
    ensures var st := State(L.State(map[], start), 0, map[]);
            && Failures(p, st, start, run, ip, start, now) >= p.limiter.Threshold()
            && exists at :: now - p.limiter.lockout < at && Failures(p, st, start, run, ip, at, at) >= 1
  {
    LockoutJustified(p, State(L.State(map[], start), 0, map[]), start, run, ip, now);
  }

  lemma {:induction false} EarlierStart(p: Params, st: State, clock: int, run: seq<Timed>, ip: string, lo: int,
                                        lo': int, hi: int)
    requires IsRun(p, st, clock, run) && lo <= lo' <= clock
    ensures Failures(p, st, clock, run, ip, lo, hi) == Failures(p, st, clock, run, ip, lo', hi)
    decreases |run|
  {
    if run != [] {
      EarlierStart(p, Next(p, st, run[0]), run[0].at, run[1..], ip, lo, lo', hi);
    }
  }

  // ----- a success wipes the slate clean -----

  /** How many failures of `ip` a run that has `n` behind it records since the last success of `ip`. */
  function SinceSuccess(p: Params, st: State, clock: int, run: seq<Timed>, ip: string, n: nat): nat
    requires IsRun(p, st, clock, run)
    decreases |run|
  {
    if run == [] then n
    else
      SinceSuccess(p, Next(p, st, run[0]), run[0].at, run[1..], ip,
                   if RecordsSuccess(st, run[0].event, ip) then 0
                   else if RecordsFailure(st, run[0].event, ip) then n + 1 else n)
  }

  /** Recording a success forgets the IP, and leaves the records of all others as they are. */
  lemma SuccessForgets(p: Params, st: State, t: Timed, ip: string)
    requires Enabled(p, st, t.event) && RecordsSuccess(st, t.event, ip)
    ensures var before, after := st.limiter.attempts, Next(p, st, t).limiter.attempts;
            && ip !in after
            && (forall other :: other != ip ==> (other in after <==> other in before))
            && (forall other :: other in after ==> after[other] == before[other])
    ensures Next(p, st, t).limiter.lastSweep == st.limiter.lastSweep
  {
  }

  /** The record of an IP that has failed `n` times since its last success. */
  predicate Accounted(p: Params, st: State, ip: string, n: nat) {
    ip in st.limiter.attempts ==>
      && 0 <= st.limiter.attempts[ip].failures <= n
      && (st.limiter.attempts[ip].lockedUntil == 0 || n >= p.limiter.Threshold())
  }

  lemma AccountedStep(p: Params, st: State, t: Timed, ip: string, n: nat)
    requires Enabled(p, st, t.event) && Accounted(p, st, ip, n)
    ensures Accounted(p, Next(p, st, t), ip, if RecordsSuccess(st, t.event, ip) then 0
                                              else if RecordsFailure(st, t.event, ip) then n + 1 else n)
  {
  }

  lemma {:induction false} AccountedRun(p: Params, st: State, clock: int, run: seq<Timed>, ip: string, n: nat)
    requires IsRun(p, st, clock, run) && Accounted(p, st, ip, n)
    ensures Accounted(p, Final(p, st, clock, run), ip, SinceSuccess(p, st, clock, run, ip, n))
    decreases |run|
  {
    if run != [] {
      var t := run[0];
      AccountedStep(p, st, t, ip, n);
      AccountedRun(p, Next(p, st, t), t.at, run[1..], ip,
                   if RecordsSuccess(st, t.event, ip) then 0 else if RecordsFailure(st, t.event, ip) then n + 1 else n);
    }
  }

  /** Main result.  In every interleaved run from a fresh limiter, an IP that is refused has failed at least as often as
      the threshold says since its last success. */
  lemma LockoutSinceSuccess(p: Params, start: int, run: seq<Timed>, ip: string, now: int)
    requires IsRun(p, State(L.State(map[], start), 0, map[]), start, run) && now >= 0
    requires L.Locked(Final(p, State(L.State(map[], start), 0, map[]), start, run).limiter, ip, now)
    ensures SinceSuccess(p, State(L.State(map[], start), 0, map[]), start, run, ip, 0) >= p.limiter.Threshold()
  {
    AccountedRun(p, State(L.State(map[], start), 0, map[]), start, run, ip, 0);
  }

  /** The count is what Failures counts while there is no success. */
  lemma {:induction false} SinceSuccessBound(p: Params, st: State, clock: int, run: seq<Timed>, ip: string, n: nat,
                                             lo: int, hi: int)
    requires IsRun(p, st, clock, run) && lo <= clock && forall i :: 0 <= i < |run| ==> run[i].at <= hi
    ensures SinceSuccess(p, st, clock, run, ip, n) <= n + Failures(p, st, clock, run, ip, lo, hi)
    decreases |run|
  {
    if run != [] {
      var t := run[0];
      SinceSuccessBound(p, Next(p, st, t), t.at, run[1..], ip,
                        if RecordsSuccess(st, t.event, ip) then 0
                        else if RecordsFailure(st, t.event, ip) then n + 1 else n, lo, hi);
    }
  }

  /** Whatever was recorded before, from any state: after a success the IP is let in again, at once and for as long as
      it has not failed as often as the threshold says. */
  lemma SuccessUnlocks(p: Params, st: State, t: Timed, rest: seq<Timed>, ip: string, now: int)
    requires Enabled(p, st, t.event) && RecordsSuccess(st, t.event, ip) && IsRun(p, Next(p, st, t), t.at, rest)
    requires 0 <= now && forall i :: 0 <= i < |rest| ==> rest[i].at <= now
    requires Failures(p, Next(p, st, t), t.at, rest, ip, t.at, now) < p.limiter.Threshold()
    ensures !L.Locked(Final(p, Next(p, st, t), t.at, rest).limiter, ip, now)
  {
    SuccessForgets(p, st, t, ip);
    AccountedRun(p, Next(p, st, t), t.at, rest, ip, 0);
    SinceSuccessBound(p, Next(p, st, t), t.at, rest, ip, 0, t.at, now);
  }

  // ----- the bcrypt semaphore -----

  function VerifyingNow(st: State): set<int> {
    set id | id in st.flights && st.flights[id].phase == Verifying
  }

  predicate SlotsMatch(p: Params, st: State) {
    st.occupied == |VerifyingNow(st)| <= p.capacity
  }

  lemma SlotsStep(p: Params, st: State, t: Timed)
    requires SlotsMatch(p, st) && Enabled(p, st, t.event)
    ensures SlotsMatch(p, Next(p, st, t))
  {
    var v, v' := VerifyingNow(st), VerifyingNow(Next(p, st, t));
    match t.event
    case Begin(id, ip) => assert v' == v;
    case Abandon(id) => assert v' == v;
    case NoPassword(id) => assert v' == v;
    case Acquire(id) => assert v' == v + {id};
    case Cancel(id) => assert v' == v;
    case Verify(id, ok) => assert v' == v - {id};
    case Record(id) => assert v' == v;
  }

  /** In every reachable state the occupied slots are exactly the attempts verifying, never more than the capacity:
      cancelled waiters leak nothing and `release` always finds the slot it gives back. */
  lemma {:induction false} SemaphoreSafe(p: Params, st: State, clock: int, run: seq<Timed>)
    requires SlotsMatch(p, st) && IsRun(p, st, clock, run)
    ensures var r := Final(p, st, clock, run);
            && r.occupied == |VerifyingNow(r)| <= p.capacity
            && (forall id :: InPhase(r, id, Verifying) ==> r.occupied >= 1)
            && ((forall id :: !InPhase(r, id, Verifying)) ==> r.occupied == 0)
    decreases |run|
  {
    if run == [] {
      assert forall id :: InPhase(st, id, Verifying) <==> id in VerifyingNow(st);
      assert (forall id :: id !in VerifyingNow(st)) ==> VerifyingNow(st) == {};
    } else {
      SlotsStep(p, st, run[0]);
      SemaphoreSafe(p, Next(p, st, run[0]), run[0].at, run[1..]);
    }
  }
}
