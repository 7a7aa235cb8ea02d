/** The login handler of internal/server/handlers_auth.go over the limiter and semaphore objects, and the run of the
    step system that one call amounts to. */
module CatalogLogin {
  import A = AppConfig
  import C = ConfigRuns
  import L = LoginLimiter
  import P = Password
  import T = Text
  import opened LoginProtocol

  /** A buffered channel used as a counting semaphore: `occupied` elements are in it. */
  class BcryptSemaphore {
    const capacity: int
    var occupied: int

    predicate Valid()
      reads this
    {
      0 <= occupied <= capacity && capacity >= 1
    }

    constructor (n: int)
      ensures Valid() && occupied == 0
      ensures capacity == if n < 1 then 1 else n
    {
      capacity := if n < 1 then 1 else n;
      occupied := 0;
    }

    /** Takes a slot, or gives up because the client left; either may win when both can.  The source blocks while
        neither can. */
    method Acquire(cancelled: bool) returns (ok: bool)
      requires Valid() && (occupied < capacity || cancelled)
      modifies this
      ensures Valid()
      ensures ok ==> old(occupied) < capacity && occupied == old(occupied) + 1
      ensures !ok ==> cancelled && occupied == old(occupied)
    {
      if {
        case occupied < capacity =>
          occupied := occupied + 1;
          ok := true;
        case cancelled =>
          ok := false;
      }
    }

    method Release()
      requires Valid()
      modifies this
      ensures Valid() && occupied == Released(old(occupied))
    {
      if occupied > 0 {
        occupied := occupied - 1;
      }
    }
  }

  /** What the stored configuration says about the catalog password. */
  datatype PasswordConfig = PasswordConfig(required: bool, hash: string, plaintext: string)

  datatype Input<T> = Value(value: T) | Broken

  datatype Reply =
    | RateLimited(retry: int)
    | BadJson
    | ConfigFailed
    | Session(rehash: bool)
    | InvalidPassword
    | Busy

  /** The events one attempt goes through, given how it was answered. */
  function Steps(id: int, ip: string, noPassword: bool, open: bool, reply: Reply, t0: int, t1: int): seq<Timed> {
    [Timed(t0, Begin(id, ip))] +
    match reply
    case RateLimited(_) => []
    case BadJson => [Timed(t1, Abandon(id))]
    case ConfigFailed => [Timed(t1, Abandon(id))]
    case Busy => [Timed(t1, Cancel(id))]
    case Session(_) =>
      if open then [Timed(t1, Abandon(id))]
      else [Timed(t1, Acquire(id)), Timed(t1, Verify(id, true)), Timed(t1, Record(id))]
    case InvalidPassword =>
      if noPassword then [Timed(t1, NoPassword(id))]
      else [Timed(t1, Acquire(id)), Timed(t1, Verify(id, false)), Timed(t1, Record(id))]
  }

  /** What the read of the configuration gives the handler; `broken` is a failing database. */
  function PasswordRead(env: A.Env, row: T.Option<A.Config>, broken: bool): Input<PasswordConfig> {
    if broken then Broken
    else
      match A.Current(env, row)
      case None => Broken
      case Some(cfg) =>
        Value(PasswordConfig(cfg.catalogPasswordRequired, cfg.catalogPasswordHash, cfg.catalogPassword))
  }

  predicate NoneStored(config: Input<PasswordConfig>) {
    config.Value? && config.value.required && config.value.hash == "" && config.value.plaintext == ""
  }

  predicate IsOpen(config: Input<PasswordConfig>) {
    config.Value? && !config.value.required
  }

  method ReadPassword(configs: A.ConfigStore, broken: bool) returns (config: Input<PasswordConfig>)
    modifies configs, configs.publicFloor
    ensures config == PasswordRead(configs.env, old(configs.row), broken)
    ensures configs.View() == if broken then old(configs.View()) else A.AfterRead(configs.env, old(configs.View()))
  {
    if broken {
      return Broken;
    }
    var read := configs.GetConfig();
    if read.None? {
      return Broken;
    }
    var cfg := read.value;
    return Value(PasswordConfig(cfg.catalogPasswordRequired, cfg.catalogPasswordHash, cfg.catalogPassword));
  }

  function Judged(bcrypt: P.Bcrypt, stored: PasswordConfig, password: string): Reply {
    match P.VerifyCatalogPassword(bcrypt, stored.hash, stored.plaintext, password)
    case Ok => Session(false)
    case OkRehash => Session(true)
    case Fail => InvalidPassword
  }

  /** What one call answers and what it does to the limiter. */
  ghost predicate LoginStep(env: A.Env, lp: L.Params, row: T.Option<A.Config>, before: L.State, ip: string,
                            password: Input<string>, broken: bool, cancelled: bool, t0: int, t1: int,
                            reply: Reply, after: L.State) {
    var swept, config := L.Swept(lp, before, t0), PasswordRead(env, row, broken);
    if L.Locked(swept, ip, t0) then
      reply.RateLimited? && t0 + reply.retry == swept.attempts[ip].lockedUntil && after == swept
    else if password.Broken? then reply == BadJson && after == swept
    else if config.Broken? then reply == ConfigFailed && after == swept
    else if !config.value.required then reply == Session(false) && after == swept
    else if NoneStored(config) then reply == InvalidPassword && after == L.Failed(lp, swept, ip, t1)
    else
      || (cancelled && reply == Busy && after == swept)
      || (reply == Judged(env.bcrypt, config.value, password.value)
          && after == if reply.Session? then L.Succeeded(swept, ip) else L.Failed(lp, swept, ip, t1))
  }

  /** The handler: it answers by the stored password.  Reading the configuration also creates a missing row and reloads
      the library floor; no other path does. */
  method Decide(limiter: L.LoginLimiter, sem: BcryptSemaphore, configs: A.ConfigStore, ip: string,
                password: Input<string>, broken: bool, cancelled: bool, t0: int, t1: int) returns (reply: Reply)
    requires sem.Valid() && (sem.occupied < sem.capacity || cancelled)
    modifies limiter, sem, configs, configs.publicFloor
    ensures sem.Valid() && sem.occupied == old(sem.occupied) && (reply.Session? || reply.InvalidPassword? ==>
              sem.occupied < sem.capacity || !NeedsSlot(PasswordRead(configs.env, old(configs.row), broken)))
    ensures configs.View() == if reply.RateLimited? || reply.BadJson? || broken then old(configs.View())
                              else A.AfterRead(configs.env, old(configs.View()))
    ensures LoginStep(configs.env, limiter.Config(), old(configs.row), old(limiter.Abs()), ip, password, broken,
                      cancelled,
                      t0, t1, reply, limiter.Abs())
  {
    var ok, retry := limiter.Allow(ip, t0);
    if !ok {
      return RateLimited(retry);
    }
    if password.Broken? {
      return BadJson;
    }
    var config := ReadPassword(configs, broken);
    if config.Broken? {
      return ConfigFailed;
    }
    if !config.value.required {
      return Session(false);
    }
    if config.value.hash == "" && config.value.plaintext == "" {
      limiter.RecordFailure(ip, t1);
      return InvalidPassword;
    }
    ok := sem.Acquire(cancelled);
    if !ok {
      return Busy;
    }
    var verdict := P.VerifyCatalogPassword(configs.env.bcrypt, config.value.hash, config.value.plaintext,
                                           password.value);
    sem.Release();
    match verdict {
      case Ok =>
        limiter.RecordSuccess(ip);
        reply := Session(false);
      case OkRehash =>
        limiter.RecordSuccess(ip);
        reply := Session(true);
      case Fail =>
        limiter.RecordFailure(ip, t1);
        reply := InvalidPassword;
    }
  }

  predicate NeedsSlot(config: Input<PasswordConfig>) {
    config.Value? && !IsOpen(config) && !NoneStored(config)
  }

  /** One call, undisturbed: `t0` is the clock at `allow`, `t1` when the outcome is recorded.  It moves limiter and
      semaphore exactly as its steps move the step system. */
  method Login(limiter: L.LoginLimiter, sem: BcryptSemaphore, configs: A.ConfigStore, ip: string,
               password: Input<string>, broken: bool, cancelled: bool, t0: int, t1: int,
               ghost id: int, ghost flights: map<int, Flight>) returns (reply: Reply)
    requires sem.Valid() && (sem.occupied < sem.capacity || cancelled)
    requires t0 <= t1 && id !in flights
    modifies limiter, sem, configs, configs.publicFloor
    ensures sem.Valid() && sem.occupied == old(sem.occupied)
    ensures configs.View() == if reply.RateLimited? || reply.BadJson? || broken then old(configs.View())
                              else A.AfterRead(configs.env, old(configs.View()))
    ensures LoginStep(configs.env, limiter.Config(), old(configs.row), old(limiter.Abs()), ip, password, broken,
                      cancelled,
                      t0, t1, reply, limiter.Abs())
    ensures var p := Params(limiter.Config(), sem.capacity);
            var st := State(old(limiter.Abs()), old(sem.occupied), flights);
            var config := PasswordRead(configs.env, old(configs.row), broken);
            var run := Steps(id, ip, NoneStored(config), IsOpen(config), reply, t0, t1);
            && IsRun(p, st, t0, run)
            && Final(p, st, t0, run) == State(limiter.Abs(), sem.occupied, flights)
  {
    ghost var p := Params(limiter.Config(), sem.capacity);
    ghost var st := State(limiter.Abs(), sem.occupied, flights);
    ghost var row := configs.row;
    reply := Decide(limiter, sem, configs, ip, password, broken, cancelled, t0, t1);
    StepIsRun(p, st, id, configs.env, row, ip, password, broken, cancelled, t0, t1, reply, limiter.Abs());
  }

  lemma StepIsRun(p: Params, st: State, id: int, env: A.Env, row: T.Option<A.Config>, ip: string,
                  password: Input<string>,
                  broken: bool, cancelled: bool, t0: int, t1: int, reply: Reply, after: L.State)
    requires id !in st.flights && t0 <= t1 && 0 <= st.occupied
    requires LoginStep(env, p.limiter, row, st.limiter, ip, password, broken, cancelled, t0, t1, reply, after)
    requires (reply.Session? || reply.InvalidPassword?) && NeedsSlot(PasswordRead(env, row, broken))
             ==> st.occupied < p.capacity
    ensures var config := PasswordRead(env, row, broken);
            var run := Steps(id, ip, NoneStored(config), IsOpen(config), reply, t0, t1);
            IsRun(p, st, t0, run) && Final(p, st, t0, run) == st.(limiter := after)
  {
    var swept := L.Swept(p.limiter, st.limiter, t0);
    if !L.Locked(swept, ip, t0) {
      var config := PasswordRead(env, row, broken);
      if password.Broken? || config.Broken? || IsOpen(config) {
        ShortRun(p, st, id, ip, Abandon(id), t0, t1);
      } else if NoneStored(config) {
        ShortRun(p, st, id, ip, NoPassword(id), t0, t1);
      } else if reply.Busy? {
        ShortRun(p, st, id, ip, Cancel(id), t0, t1);
      } else {
        JudgedRun(p, st, id, ip, reply.Session?, t0, t1);
      }
    } else {
      Cons(p, st, t0, Timed(t0, Begin(id, ip)), []);
    }
  }

  // ----- who gets in -----

  /** Is this the password of the stored hash, or the plaintext of an old configuration? */
  predicate OfHash(env: A.Env, cfg: A.Config, password: string) {
    "$2" <= cfg.catalogPasswordHash && env.bcrypt.compare(cfg.catalogPasswordHash, password)
  }

  predicate OfPlaintext(cfg: A.Config, password: string) {
    cfg.catalogPassword != "" && cfg.catalogPassword == password
  }

  /** Main result.  An IP that is not locked out and stays connected gets a session exactly when the stored
      configuration requires no password or has the one supplied as its hash or plaintext; a rehash is asked for
      exactly when only the plaintext has it.  Without protection nothing is recorded; with it an accepted password
      clears the IP's record, and any other records one failure of the IP and nothing else. */
  lemma LoginExactly(env: A.Env, lp: L.Params, row: T.Option<A.Config>, before: L.State, ip: string, password: string,
                     t0: int, t1: int, reply: Reply, after: L.State)
    requires LoginStep(env, lp, row, before, ip, Value(password), false, false, t0, t1, reply, after)
    requires !L.Locked(L.Swept(lp, before, t0), ip, t0) && A.Current(env, row).Some?
    ensures var cfg, swept := A.Current(env, row).value, L.Swept(lp, before, t0);
            && (reply.Session? <==>
                  !cfg.catalogPasswordRequired || OfHash(env, cfg, password) || OfPlaintext(cfg, password))
            && (reply == Session(true) <==>
                  cfg.catalogPasswordRequired && !OfHash(env, cfg, password) && OfPlaintext(cfg, password))
            && (!reply.Session? ==> reply == InvalidPassword && after == L.Failed(lp, swept, ip, t1))
            && (!cfg.catalogPasswordRequired ==> reply == Session(false) && after == swept)
            && (cfg.catalogPasswordRequired && reply.Session? ==>
                  && ip !in after.attempts && after.lastSweep == swept.lastSweep
                  && (forall other :: other != ip ==> (other in after.attempts <==> other in swept.attempts))
                  && (forall other :: other in after.attempts ==> after.attempts[other] == swept.attempts[other]))
  {
  }

  /** Everybody else: who is locked out is told for how long, an unreadable body or configuration is an error, and none
      of these, nor a client that left while waiting, changes a record beyond the sweep. */
  lemma LoginRefused(env: A.Env, lp: L.Params, row: T.Option<A.Config>, before: L.State, ip: string,
                     password: Input<string>, broken: bool, cancelled: bool, t0: int, t1: int, reply: Reply,
                       after: L.State)
    requires LoginStep(env, lp, row, before, ip, password, broken, cancelled, t0, t1, reply, after)
    ensures var swept := L.Swept(lp, before, t0);
            var locked := L.Locked(swept, ip, t0);
            && (locked <==> reply.RateLimited?)
            && (locked ==> t0 + reply.retry == swept.attempts[ip].lockedUntil)
            && (reply == BadJson <==> !locked && password.Broken?)
            && (reply == ConfigFailed <==> !locked && password.Value? && (broken || A.Current(env, row).None?))
            && (reply == Busy ==> cancelled)
            && (!reply.Session? && !reply.InvalidPassword? ==> after == swept)
  {
  }

  /** In particular the password a stored hash was made from gets in, at once. */
  lemma RightPassword(env: A.Env, lp: L.Params, row: T.Option<A.Config>, before: L.State, ip: string, password: string,
                      salt: nat, t0: int, t1: int, reply: Reply, after: L.State)
    requires LoginStep(env, lp, row, before, ip, Value(password), false, false, t0, t1, reply, after)
    requires !L.Locked(L.Swept(lp, before, t0), ip, t0) && A.Current(env, row).Some?
    requires P.Lawful(env.bcrypt) && password != ""
    requires env.bcrypt.hash(password, salt) == P.Hash(A.Current(env, row).value.catalogPasswordHash)
    ensures reply == Session(false)
    ensures A.Current(env, row).value.catalogPasswordRequired ==> ip !in after.attempts
  {
    LoginExactly(env, lp, row, before, ip, password, t0, t1, reply, after);
  }

  /** While a hash protects the catalog and no plaintext lies beside it, exactly the passwords bcrypt takes for the one
      that was hashed get in; that one does. */
  lemma Protected(env: A.Env, row: T.Option<A.Config>, chosen: string, salt: nat, lp: L.Params, before: L.State,
                  ip: string, password: string, t0: int, t1: int, reply: Reply, after: L.State)
    requires A.Current(env, row).Some? && P.Lawful(env.bcrypt)
    requires var cfg := A.Current(env, row).value; C.Protects(env, cfg, chosen, salt) && cfg.catalogPassword == ""
    requires LoginStep(env, lp, row, before, ip, Value(password), false, false, t0, t1, reply, after)
    requires !L.Locked(L.Swept(lp, before, t0), ip, t0)
    ensures reply == if password == chosen || env.bcrypt.compare(env.bcrypt.hash(chosen, salt).text, password)
                     then Session(false) else InvalidPassword
    ensures reply.Session? ==> ip !in after.attempts
    ensures !reply.Session? ==> after == L.Failed(lp, L.Swept(lp, before, t0), ip, t1)
  {
    assert env.bcrypt.hash(chosen, salt).Hash?;
    LoginExactly(env, lp, row, before, ip, password, t0, t1, reply, after);
  }

  /** A password set by PATCH, with protection on, logs in, and no other does unless bcrypt takes it for this one. */
  lemma PatchedPassword(env: A.Env, st: A.Store, request: A.Config, salt: nat, lp: L.Params, before: L.State,
                        ip: string,
                        password: string, t0: int, t1: int, reply: Reply, after: L.State)
    requires C.Settled(env, st) && P.Lawful(env.bcrypt) && A.Apply(env, st, A.Patch(request), salt).ok
    requires request.catalogPassword != "" && request.catalogPasswordRequired
    requires LoginStep(env, lp, A.Apply(env, st, A.Patch(request), salt).store.row, before, ip, Value(password),
                       false, false, t0, t1, reply, after)
    requires !L.Locked(L.Swept(lp, before, t0), ip, t0)
    ensures env.bcrypt.hash(request.catalogPassword, salt).Hash?
    ensures reply == if password == request.catalogPassword
                        || env.bcrypt.compare(env.bcrypt.hash(request.catalogPassword, salt).text, password)
                     then Session(false) else InvalidPassword
    ensures reply.Session? ==> ip !in after.attempts
    ensures !reply.Session? ==> after == L.Failed(lp, L.Swept(lp, before, t0), ip, t1)
  {
    var row := A.Apply(env, st, A.Patch(request), salt).store.row;
    PatchProtects(env, st, request, salt);
    Protected(env, row, request.catalogPassword, salt, lp, before, ip, password, t0, t1, reply, after);
  }

  lemma PatchProtects(env: A.Env, st: A.Store, request: A.Config, salt: nat)
    requires C.Settled(env, st) && P.Lawful(env.bcrypt) && A.Apply(env, st, A.Patch(request), salt).ok
    requires request.catalogPassword != "" && request.catalogPasswordRequired
    ensures var read := A.Current(env, A.Apply(env, st, A.Patch(request), salt).store.row);
            read.Some? && C.Protects(env, read.value, request.catalogPassword, salt) && read.value.catalogPassword == ""
  {
    C.PatchTakesEffect(env, st, request, salt);
    C.PatchReplaces(env, st, request, salt);
    A.NormalizeExactly(env, C.WithSecret(A.Current(env, st.row).value, request));
    C.SettledReads(env, A.Apply(env, st, A.Patch(request), salt).store);
  }

  /** So does the password of the manifest after the first start. */
  lemma BootedPassword(env: A.Env, st: A.Store, manifest: A.Config, freshSecret: string, salt: nat, lp: L.Params,
                       before: L.State, ip: string, password: string, t0: int, t1: int, reply: Reply, after: L.State)
    requires freshSecret != "" && P.Lawful(env.bcrypt) && A.Apply(env, st, A.Boot(manifest, freshSecret), salt).ok
    requires A.Current(env, st.row) == A.Current(env, T.None) && manifest.catalogPassword != ""
    requires LoginStep(env, lp, A.Apply(env, st, A.Boot(manifest, freshSecret), salt).store.row, before, ip,
                       Value(password), false, false, t0, t1, reply, after)
    requires !L.Locked(L.Swept(lp, before, t0), ip, t0)
    ensures env.bcrypt.hash(manifest.catalogPassword, salt).Hash?
    ensures reply == if password == manifest.catalogPassword
                        || env.bcrypt.compare(env.bcrypt.hash(manifest.catalogPassword, salt).text, password)
                     then Session(false) else InvalidPassword
  {
    var row := A.Apply(env, st, A.Boot(manifest, freshSecret), salt).store.row;
    C.BootstrapImports(env, st, manifest, freshSecret, salt);
    A.NormalizeExactly(env, manifest);
    Protected(env, row, manifest.catalogPassword, salt, lp, before, ip, password, t0, t1, reply, after);
  }

  /** After a clear every password gets a session, and nothing is recorded. */
  lemma ClearedPassword(env: A.Env, st: A.Store, salt: nat, lp: L.Params, before: L.State, ip: string,
                        password: string, t0: int, t1: int, reply: Reply, after: L.State)
    requires C.Settled(env, st)
    requires LoginStep(env, lp, A.Apply(env, st, A.Clear, salt).store.row, before, ip, Value(password),
                       false, false, t0, t1, reply, after)
    requires !L.Locked(L.Swept(lp, before, t0), ip, t0)
    ensures reply == Session(false) && after == L.Swept(lp, before, t0)
  {
    C.ClearTakesEffect(env, st, salt, password);
    LoginExactly(env, lp, A.Apply(env, st, A.Clear, salt).store.row, before, ip, password, t0, t1, reply, after);
  }

  /** The steps of an attempt whose password was compared. */
  lemma JudgedRun(p: Params, st: State, id: int, ip: string, ok: bool, t0: int, t1: int)
    requires id !in st.flights && 0 <= st.occupied < p.capacity && t0 <= t1
    requires !L.Locked(L.Swept(p.limiter, st.limiter, t0), ip, t0)
    ensures var run := [Timed(t0, Begin(id, ip)), Timed(t1, Acquire(id)), Timed(t1, Verify(id, ok)),
                        Timed(t1, Record(id))];
            var swept := L.Swept(p.limiter, st.limiter, t0);
            && IsRun(p, st, t0, run)
            && Final(p, st, t0, run)
               == st.(limiter := if ok then L.Succeeded(swept, ip) else L.Failed(p.limiter, swept, ip, t1))
  {
    var st1 := Next(p, st, Timed(t0, Begin(id, ip)));
    var st2 := Next(p, st1, Timed(t1, Acquire(id)));
    var st3 := Next(p, st2, Timed(t1, Verify(id, ok)));
    assert st3.flights - {id} == st.flights;
    Cons(p, st3, t1, Timed(t1, Record(id)), []);
    Cons(p, st2, t1, Timed(t1, Verify(id, ok)), [Timed(t1, Record(id))]);
    Cons(p, st1, t0, Timed(t1, Acquire(id)), [Timed(t1, Verify(id, ok)), Timed(t1, Record(id))]);
    Cons(p, st, t0, Timed(t0, Begin(id, ip)),
         [Timed(t1, Acquire(id)), Timed(t1, Verify(id, ok)), Timed(t1, Record(id))]);
  }

  /** The steps of an attempt that ends right after `allow`. */
  lemma ShortRun(p: Params, st: State, id: int, ip: string, e: Event, t0: int, t1: int)
    requires id !in st.flights && t0 <= t1 && e in {Abandon(id), Cancel(id), NoPassword(id)}
    requires !L.Locked(L.Swept(p.limiter, st.limiter, t0), ip, t0)
    ensures var run := [Timed(t0, Begin(id, ip)), Timed(t1, e)];
            var swept := L.Swept(p.limiter, st.limiter, t0);
            && IsRun(p, st, t0, run)
            && Final(p, st, t0, run)
               == st.(limiter := if e.NoPassword? then L.Failed(p.limiter, swept, ip, t1) else swept)
  {
    var st1 := Next(p, st, Timed(t0, Begin(id, ip)));
    assert st1.flights - {id} == st.flights;
    Cons(p, st1, t0, Timed(t1, e), []);
    Cons(p, st, t0, Timed(t0, Begin(id, ip)), [Timed(t1, e)]);
  }

  lemma Cons(p: Params, st: State, clock: int, t: Timed, run: seq<Timed>)
    requires clock <= t.at && Enabled(p, st, t.event) && IsRun(p, Next(p, st, t), t.at, run)
    ensures IsRun(p, st, clock, [t] + run)
    ensures Final(p, st, clock, [t] + run) == Final(p, Next(p, st, t), t.at, run)
  {
    assert ([t] + run)[1..] == run;
  }
}
