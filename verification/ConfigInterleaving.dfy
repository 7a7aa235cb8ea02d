/** The configuration operations with their steps interleaved at will (internal/store/config.go): reading fetches the
    row and later installs its allowlist as the floor, and a handler edits the copy it read and writes the whole copy
    back, with no lock around any two of these steps.  Page views read as well. */
module ConfigInterleaving {
  import opened Text
  import opened LibraryScope
  import opened AppConfig
  import opened ConfigRuns

  /** A plain read, as every page view makes, or one of the operations. */
  datatype Task = Look | Operate(op: Op)

  /** Between fetching the row and installing its allowlist; between that and the write; or between the write and the
      second read. */
  datatype Flight = Reading(task: Task, cur: Config) | InHand(op: Op, cur: Config) | Written

  datatype State = State(store: Store, flights: map<int, Flight>)

  datatype Event = Fetch(id: int, task: Task) | Install(id: int) | Commit(id: int, salt: nat) | FetchAgain(id: int)

  /** The pieces of an operation as values. */
  datatype Rules = Rules(
    fetched: Option<Config> -> Option<Config>,
    current: Option<Config> -> Option<Config>,
    effect: (Op, Config, nat) -> Effect,
    sound: Config -> bool,
    face: Config -> Face,
    hash: HashFunction)

  function RulesOf(env: Env): Rules {
    Rules((row: Option<Config>) => if row.None? then Some(DefaultAppConfig()) else row, row => Current(env, row),
          (op: Op, cur: Config, salt: nat) => EffectOf(env, op, cur, salt),
          cur => Sound(env, cur), cur => FaceOf(cur), Hasher(env))
  }

  predicate Enabled(st: State, e: Event) {
    match e
    case Fetch(id, _) => id !in st.flights
    case Install(id) => id in st.flights && st.flights[id].Reading?
    case Commit(id, _) => id in st.flights && st.flights[id].InHand?
    case FetchAgain(id) => id in st.flights && st.flights[id].Written?
  }

  /** The row is fetched; a row that does not normalise ends the flight. */
  function Fetched(r: Rules, st: State, id: int, task: Task): State {
    var cur := r.current(st.store.row);
    State(st.store.(row := r.fetched(st.store.row)),
          if cur.None? then st.flights - {id} else st.flights[id := Reading(task, cur.value)])
  }

  function Next(r: Rules, st: State, e: Event): State {
    if !Enabled(st, e) then st
    else
      match e
      case Fetch(id, task) => if task.Operate? && TooLarge(task.op) then st else Fetched(r, st, id, task)
      case Install(id) =>
        var f := st.flights[id];
        State(st.store.(floor := r.face(f.cur).ids),
              if f.task.Look? then st.flights - {id} else st.flights[id := InHand(f.task.op, f.cur)])
      case Commit(id, salt) =>
        var f := st.flights[id];
        var effect := r.effect(f.op, f.cur, salt);
        if !effect.Rewritten? then st.(flights := st.flights - {id})
        else
          State(st.store.(row := Some(effect.row)),
                if ReadsBack(f.op) then st.flights[id := Written] else st.flights - {id})
      case FetchAgain(id) => Fetched(r, st, id, Look)
  }

  function Init(es: seq<Event>): seq<Event>
    requires es != []
  {
    es[..|es| - 1]
  }

  function Last(es: seq<Event>): Event
    requires es != []
  {
    es[|es| - 1]
  }

  function After(r: Rules, st: State, es: seq<Event>): State {
    if es == [] then st else Next(r, After(r, st, Init(es)), Last(es))
  }

  ghost predicate IsRun(r: Rules, st: State, es: seq<Event>) {
    es == [] || (IsRun(r, st, Init(es)) && Enabled(After(r, st, Init(es)), Last(es)))
  }

  predicate Quiescent(st: State) { st.flights == map[] }

  /** The operations a run starts; plain reads are not counted. */
  function Started(es: seq<Event>): set<Op> {
    set e | e in es && e.Fetch? && e.task.Operate? :: e.task.op
  }

  /** The commits of a run, in their order. */
  function Commits(r: Rules, st: State, es: seq<Event>): seq<Call> {
    if es == [] then []
    else
      var before := After(r, st, Init(es));
      Commits(r, st, Init(es))
      + if Last(es).Commit? && Enabled(before, Last(es)) then [Call(before.flights[Last(es).id].op, Last(es).salt)]
        else []
  }

  // ----- what the rules keep -----

  ghost predicate EffectLaw(r: Rules, op: Op, cur: Config, salt: nat) {
    var effect := r.effect(op, cur, salt);
    r.sound(cur) && effect.Rewritten? ==>
      && r.sound(effect.row) && r.current(Some(effect.row)) == Some(effect.row)
      && Follows(r.hash, op, r.face(cur), salt, r.face(effect.row))
  }

  /** Whether an operation is accepted, and to which allowlist a PATCH leads, depends on what it read only through the
      listener. */
  ghost predicate AcceptLaw(r: Rules, op: Op, a: Config, b: Config, salt: nat) {
    r.sound(a) && r.sound(b) && r.face(a).listener == r.face(b).listener && r.effect(op, a, salt).Rewritten? ==>
      && r.effect(op, b, salt).Rewritten?
      && (op.Patch? ==> r.face(r.effect(op, a, salt).row).ids == r.face(r.effect(op, b, salt).row).ids)
  }

  ghost predicate FetchLaw(r: Rules, row: Option<Config>) {
    r.current(r.fetched(row)) == r.current(row)
  }

  ghost predicate Lawful(r: Rules) {
    && (forall op: Op, cur: Config, salt: nat :: EffectLaw(r, op, cur, salt))
    && (forall op: Op, a: Config, b: Config, salt: nat :: AcceptLaw(r, op, a, b, salt))
    && (forall row: Option<Config> :: FetchLaw(r, row))
  }

  lemma RulesLawful(env: Env)
    ensures Lawful(RulesOf(env))
  {
    var r := RulesOf(env);
    forall op: Op, cur: Config, salt: nat ensures EffectLaw(r, op, cur, salt) {
      if Sound(env, cur) {
        EffectsFollow(env, op, cur, salt);
      }
    }
    forall op: Op, a: Config, b: Config, salt: nat ensures AcceptLaw(r, op, a, b, salt) {
      if Sound(env, a) && Sound(env, b) && FaceOf(a).listener == FaceOf(b).listener
         && EffectOf(env, op, a, salt).Rewritten? {
        AcceptedAlike(env, op, a, b, salt);
      }
    }
    forall row: Option<Config> ensures FetchLaw(r, row) {
    }
  }

  /** A configuration of known descent: sound, with the first listener, secret and hash of known origin. */
  ghost predicate Descends(r: Rules, first: Face, ops: set<Op>, c: Config) {
    r.sound(c) && Known(r.hash, first, ops, r.face(c))
  }

  ghost predicate FlightDescends(r: Rules, first: Face, ops: set<Op>, f: Flight) {
    match f
    case Reading(task, cur) => Descends(r, first, ops, cur) && (task.Operate? ==> task.op in ops)
    case InHand(op, cur) => Descends(r, first, ops, cur) && op in ops
    case Written => true
  }

  /** The row and every configuration in the hands of a flight are of known descent. */
  ghost predicate Inv(r: Rules, first: Face, ops: set<Op>, st: State) {
    && r.current(st.store.row).Some? && Descends(r, first, ops, r.current(st.store.row).value)
    && (forall id :: id in st.flights ==> FlightDescends(r, first, ops, st.flights[id]))
  }

  lemma NextKeeps(r: Rules, first: Face, ops: set<Op>, st: State, e: Event)
    requires Lawful(r) && Inv(r, first, ops, st) && (e.Fetch? && e.task.Operate? ==> e.task.op in ops)
    ensures Inv(r, first, ops, Next(r, st, e))
  {
    assert FetchLaw(r, st.store.row);
    if Enabled(st, e) && e.Commit? {
      var f := st.flights[e.id];
      assert FlightDescends(r, first, ops, f) && EffectLaw(r, f.op, f.cur, e.salt);
      if r.effect(f.op, f.cur, e.salt).Rewritten? {
        KnownThenStep(r.hash, first, ops, r.face(f.cur), f.op, e.salt, r.face(r.effect(f.op, f.cur, e.salt).row));
      }
    } else if Enabled(st, e) && e.Install? {
      assert FlightDescends(r, first, ops, st.flights[e.id]);
    }
  }

  lemma LastStarted(es: seq<Event>)
    requires es != []
    ensures Last(es).Fetch? && Last(es).task.Operate? ==> Last(es).task.op in Started(es)
    ensures Started(Init(es)) <= Started(es)
  {
    assert Last(es) in es && forall e :: e in Init(es) ==> e in es;
  }

  lemma {:induction false} RunKeepsInv(r: Rules, first: Face, ops: set<Op>, st: State, es: seq<Event>)
    requires Lawful(r) && Inv(r, first, ops, st) && Started(es) <= ops
    ensures Inv(r, first, ops, After(r, st, es))
    decreases |es|
  {
    if es != [] {
      LastStarted(es);
      RunKeepsInv(r, first, ops, st, Init(es));
      NextKeeps(r, first, ops, After(r, st, Init(es)), Last(es));
    }
  }

  lemma SettledInv(env: Env, st: Store, ops: set<Op>)
    requires Settled(env, st)
    ensures Inv(RulesOf(env), CurrentFace(env, st), ops, State(st, map[]))
  {
  }

  /** Main result.  However the steps of the operations and of plain reads interleave, the row stays sound and the
      listener as it was, and secret and hash are of known origin. */
  lemma InterleavedSafety(env: Env, st: Store, es: seq<Event>)
    requires Settled(env, st)
    ensures var end := After(RulesOf(env), State(st, map[]), es).store;
            && Ready(env, end.row)
            && Known(Hasher(env), CurrentFace(env, st), Started(es), FaceOf(Current(env, end.row).value))
  {
    RulesLawful(env);
    SettledInv(env, st, Started(es));
    RunKeepsInv(RulesOf(env), CurrentFace(env, st), Started(es), State(st, map[]), es);
  }

  // ----- when a run ends in step -----

  /** The allowlist in the row after a run. */
  function Allowlist(r: Rules, st: State, es: seq<Event>): seq<int> {
    var cur := r.current(After(r, st, es).store.row);
    if cur.None? then [] else r.face(cur.value).ids
  }

  /** The floor is the allowlist of the row. */
  predicate FloorMatches(r: Rules, st: Store) {
    r.current(st.row).Some? && st.floor == r.face(r.current(st.row).value).ids
  }

  /** The position of the last fetch of a flight, 0 if it made none. */
  function FetchOf(es: seq<Event>, id: int): nat {
    if es == [] then 0
    else if (Last(es).Fetch? || Last(es).FetchAgain?) && Last(es).id == id then |es| - 1
    else FetchOf(Init(es), id)
  }

  /** The position of the fetch that the last install belongs to, 0 if there was none: read off the schedule alone. */
  function Seen(es: seq<Event>): nat {
    if es == [] then 0
    else if Last(es).Install? then FetchOf(Init(es), Last(es).id)
    else Seen(Init(es))
  }

  /** What a flight that has fetched holds, and what the floor holds. */
  ghost predicate SeenInv(r: Rules, st: State, es: seq<Event>) {
    var now := After(r, st, es);
    && Seen(es) <= |es| && now.store.floor == Allowlist(r, st, es[..Seen(es)])
    && (forall id :: id in now.flights && now.flights[id].Reading? ==>
          FetchOf(es, id) <= |es| && r.face(now.flights[id].cur).ids == Allowlist(r, st, es[..FetchOf(es, id)]))
  }

  lemma {:induction false} FloorAsSeen(r: Rules, first: Face, ops: set<Op>, st: State, es: seq<Event>)
    requires Lawful(r) && Inv(r, first, ops, st) && Quiescent(st) && FloorMatches(r, st.store)
    requires IsRun(r, st, es) && Started(es) <= ops
    ensures SeenInv(r, st, es)
    decreases |es|
  {
    if es != [] {
      LastStarted(es);
      FloorAsSeen(r, first, ops, st, Init(es));
      RunKeepsInv(r, first, ops, st, Init(es));
      assert forall k: nat :: k < |es| ==> Init(es)[..k] == es[..k];
      assert es[..|es| - 1] == Init(es) && Init(es)[..|es| - 1] == Init(es);
      SeenStep(r, st, es);
    }
  }

  lemma SeenStep(r: Rules, st: State, es: seq<Event>)
    requires es != [] && SeenInv(r, st, Init(es)) && IsRun(r, st, es)
    requires r.current(After(r, st, Init(es)).store.row).Some?
    requires forall k: nat :: k < |es| ==> Init(es)[..k] == es[..k]
    ensures SeenInv(r, st, es)
  {
    var before, now := After(r, st, Init(es)), After(r, st, es);
    forall id | id in now.flights && now.flights[id].Reading?
      ensures FetchOf(es, id) <= |es| && r.face(now.flights[id].cur).ids == Allowlist(r, st, es[..FetchOf(es, id)])
    {
      if FetchOf(es, id) == |es| - 1 && (Last(es).Fetch? || Last(es).FetchAgain?) && Last(es).id == id {
        assert es[..|es| - 1] == Init(es);
      }
    }
  }

  lemma SettledFloor(env: Env, st: Store)
    requires Settled(env, st)
    ensures FloorMatches(RulesOf(env), st)
  {
  }

  /** Main result on the floor, run by run.  At every moment the floor is the allowlist as the row had it at the fetch
      whose install came last; so a run ends in step exactly when the row's allowlist at its end is the one at that
      fetch. */
  lemma EndsInStepExactly(env: Env, st: Store, es: seq<Event>)
    requires Settled(env, st) && IsRun(RulesOf(env), State(st, map[]), es)
    ensures var r, s0 := RulesOf(env), State(st, map[]);
            && Seen(es) <= |es|
            && After(r, s0, es).store.floor == Allowlist(r, s0, es[..Seen(es)])
            && (InStep(env, After(r, s0, es).store) <==> Allowlist(r, s0, es[..Seen(es)]) == Allowlist(r, s0, es))
  {
    var r, s0 := RulesOf(env), State(st, map[]);
    RulesLawful(env);
    SettledInv(env, st, Started(es));
    SettledFloor(env, st);
    FloorAsSeen(r, CurrentFace(env, st), Started(es), s0, es);
    RunKeepsInv(r, CurrentFace(env, st), Started(es), s0, es);
  }

  // ----- the discipline that keeps it in step -----

  /** A flight that will install an allowlist it fetched, or write one back: a window in which a change goes unseen. */
  predicate Open(f: Flight) {
    f.Reading? || (f.InHand? && !f.op.Patch?)
  }

  /** The last step is a commit that changes the allowlist while the window of another flight is open. */
  ghost predicate Spans(r: Rules, st: State, es: seq<Event>)
    requires es != []
  {
    && Last(es).Commit? && Allowlist(r, st, es) != Allowlist(r, st, Init(es))
    && exists id :: id != Last(es).id && id in After(r, st, Init(es)).flights
                    && Open(After(r, st, Init(es)).flights[id])
  }

  ghost predicate NeverSpans(r: Rules, st: State, es: seq<Event>) {
    es == [] || (NeverSpans(r, st, Init(es)) && !Spans(r, st, es))
  }

  /** Every open window holds the row's allowlist, and the floor does or some flight will still install it. */
  ghost predicate StepInv(r: Rules, st: State) {
    && r.current(st.store.row).Some?
    && var ids := r.face(r.current(st.store.row).value).ids;
       && (forall id :: id in st.flights && Open(st.flights[id]) ==> r.face(st.flights[id].cur).ids == ids)
       && (st.store.floor == ids
           || exists id :: id in st.flights && (st.flights[id].Written? || st.flights[id].Reading?))
  }

  lemma CommitInStep(r: Rules, first: Face, ops: set<Op>, st: State, es: seq<Event>)
    requires es != [] && Lawful(r) && IsRun(r, st, es) && !Spans(r, st, es) && Last(es).Commit?
    requires Inv(r, first, ops, After(r, st, Init(es))) && StepInv(r, After(r, st, Init(es)))
    ensures StepInv(r, After(r, st, es))
  {
    var before, now, e := After(r, st, Init(es)), After(r, st, es), Last(es);
    var f := before.flights[e.id];
    assert FlightDescends(r, first, ops, f) && EffectLaw(r, f.op, f.cur, e.salt);
    if r.effect(f.op, f.cur, e.salt).Rewritten? {
      if Allowlist(r, st, es) != Allowlist(r, st, Init(es)) {
        assert f.op.Patch? by {
          assert !f.op.Patch? ==> Open(f);
        }
        assert e.id in now.flights && now.flights[e.id].Written?;
      } else if before.store.floor != Allowlist(r, st, Init(es)) {
        var id :| id in before.flights && (before.flights[id].Written? || before.flights[id].Reading?);
        assert id in now.flights && now.flights[id] == before.flights[id];
      }
    } else if before.store.floor != Allowlist(r, st, Init(es)) {
      var id :| id in before.flights && (before.flights[id].Written? || before.flights[id].Reading?);
      assert id in now.flights && now.flights[id] == before.flights[id];
    }
  }

  lemma ReadInStep(r: Rules, st: State, e: Event)
    requires Lawful(r) && StepInv(r, st) && Enabled(st, e) && !e.Commit?
    ensures StepInv(r, Next(r, st, e))
  {
    var now := Next(r, st, e);
    assert FetchLaw(r, st.store.row);
    if !e.Install? && st.store.floor != r.face(r.current(st.store.row).value).ids {
      var id :| id in st.flights && (st.flights[id].Written? || st.flights[id].Reading?);
      assert id in now.flights && (now.flights[id].Written? || now.flights[id].Reading?);
    }
  }

  lemma {:induction false} StaysInStep(r: Rules, first: Face, ops: set<Op>, st: State, es: seq<Event>)
    requires Lawful(r) && Inv(r, first, ops, st) && StepInv(r, st) && IsRun(r, st, es) && Started(es) <= ops
    requires NeverSpans(r, st, es)
    ensures StepInv(r, After(r, st, es))
    decreases |es|
  {
    if es != [] {
      LastStarted(es);
      StaysInStep(r, first, ops, st, Init(es));
      RunKeepsInv(r, first, ops, st, Init(es));
      if Last(es).Commit? {
        CommitInStep(r, first, ops, st, es);
      } else {
        ReadInStep(r, After(r, st, Init(es)), Last(es));
      }
    }
  }

  /** A run in which no commit changes the allowlist inside another flight's window is in step whenever nothing is
      under way. */
  lemma UnspannedEndsInStep(env: Env, st: Store, es: seq<Event>)
    requires Settled(env, st) && IsRun(RulesOf(env), State(st, map[]), es)
             && NeverSpans(RulesOf(env), State(st, map[]), es)
    requires Quiescent(After(RulesOf(env), State(st, map[]), es))
    ensures InStep(env, After(RulesOf(env), State(st, map[]), es).store)
  {
    RulesLawful(env);
    SettledInv(env, st, Started(es));
    SettledFloor(env, st);
    StaysInStep(RulesOf(env), CurrentFace(env, st), Started(es), State(st, map[]), es);
  }

  // ----- exactly which operations can leave it out of step -----

  /** Applied to `cur` the operation would change the allowlist. */
  ghost predicate Changes(r: Rules, cur: Config, op: Op, salt: nat) {
    var effect := r.effect(op, cur, salt);
    effect.Rewritten? && r.face(effect.row).ids != r.face(cur).ids
  }

  ghost predicate NoneChanges(r: Rules, st: State, ops: set<Op>) {
    && r.current(st.store.row).Some?
    && forall op, salt: nat :: op in ops ==> !Changes(r, r.current(st.store.row).value, op, salt)
  }

  ghost predicate NoRunSpans(r: Rules, st: State, ops: set<Op>) {
    forall es :: IsRun(r, st, es) && Started(es) <= ops ==> NeverSpans(r, st, es)
  }

  ghost predicate RunsEndInStep(r: Rules, st: State, ops: set<Op>) {
    forall es :: IsRun(r, st, es) && Started(es) <= ops && Quiescent(After(r, st, es)) ==>
      FloorMatches(r, After(r, st, es).store)
  }

  /** Every configuration about has one allowlist. */
  ghost predicate OneAllowlist(r: Rules, ids: seq<int>, st: State) {
    && r.current(st.store.row).Some? && r.face(r.current(st.store.row).value).ids == ids
    && (forall id :: id in st.flights && !st.flights[id].Written? ==> r.face(st.flights[id].cur).ids == ids)
  }

  lemma OneAllowlistStep(r: Rules, cur: Config, ops: set<Op>, st: State, e: Event)
    requires Lawful(r) && r.sound(cur) && Inv(r, r.face(cur), ops, st)
             && (forall op, salt: nat :: op in ops ==> !Changes(r, cur, op, salt))
    requires OneAllowlist(r, r.face(cur).ids, st)
    ensures OneAllowlist(r, r.face(cur).ids, Next(r, st, e))
  {
    assert FetchLaw(r, st.store.row);
    if Enabled(st, e) && e.Commit? {
      var f := st.flights[e.id];
      assert FlightDescends(r, r.face(cur), ops, f) && EffectLaw(r, f.op, f.cur, e.salt)
        && AcceptLaw(r, f.op, f.cur, cur, e.salt);
      assert !Changes(r, cur, f.op, e.salt);
    }
  }

  lemma {:induction false} OneAllowlistRuns(r: Rules, cur: Config, ops: set<Op>, st: State, es: seq<Event>)
    requires Lawful(r) && r.sound(cur) && Inv(r, r.face(cur), ops, st)
             && (forall op, salt: nat :: op in ops ==> !Changes(r, cur, op, salt))
    requires OneAllowlist(r, r.face(cur).ids, st) && Started(es) <= ops
    ensures OneAllowlist(r, r.face(cur).ids, After(r, st, es)) && NeverSpans(r, st, es)
    decreases |es|
  {
    if es != [] {
      LastStarted(es);
      OneAllowlistRuns(r, cur, ops, st, Init(es));
      RunKeepsInv(r, r.face(cur), ops, st, Init(es));
      OneAllowlistStep(r, cur, ops, After(r, st, Init(es)), Last(es));
    }
  }

  // ----- building runs -----

  lemma Extend(r: Rules, st: State, es: seq<Event>, e: Event) returns (es': seq<Event>)
    requires IsRun(r, st, es) && Enabled(After(r, st, es), e)
    ensures es' == es + [e] && IsRun(r, st, es') && After(r, st, es') == Next(r, After(r, st, es), e)
    ensures Started(es') == Started(es) + if e.Fetch? && e.task.Operate? then {e.task.op} else {}
    ensures Commits(r, st, es') == Commits(r, st, es)
                                   + if e.Commit? then [Call(After(r, st, es).flights[e.id].op, e.salt)] else []
  {
    es' := es + [e];
    assert Init(es') == es && Last(es') == e;
  }

  /** An operation from its fetch to just before its write. */
  lemma Begin(r: Rules, st: State, es: seq<Event>, id: int, op: Op) returns (es': seq<Event>)
    requires IsRun(r, st, es) && id !in After(r, st, es).flights && !TooLarge(op)
             && r.current(After(r, st, es).store.row).Some?
    requires r.fetched(After(r, st, es).store.row) == After(r, st, es).store.row
    ensures IsRun(r, st, es') && Started(es') == Started(es) + {op} && Commits(r, st, es') == Commits(r, st, es)
    ensures var s := After(r, st, es);
            var cur := r.current(s.store.row).value;
            After(r, st, es') == State(s.store.(floor := r.face(cur).ids), s.flights[id := InHand(op, cur)])
  {
    var s := After(r, st, es);
    var cur := r.current(s.store.row).value;
    var fetched := Extend(r, st, es, Fetch(id, Operate(op)));
    assert After(r, st, fetched) == State(s.store, s.flights[id := Reading(Operate(op), cur)]);
    es' := Extend(r, st, fetched, Install(id));
    assert s.flights[id := Reading(Operate(op), cur)][id := InHand(op, cur)] == s.flights[id := InHand(op, cur)];
  }

  /** Its write and the fetch of its second read. */
  lemma WriteAndFetch(r: Rules, st: State, es: seq<Event>, id: int, salt: nat) returns (es': seq<Event>)
    requires Lawful(r) && IsRun(r, st, es) && id in After(r, st, es).flights && After(r, st, es).flights[id].InHand?
    requires var f := After(r, st, es).flights[id];
             r.sound(f.cur) && ReadsBack(f.op) && r.effect(f.op, f.cur, salt).Rewritten?
    requires forall c: Config :: r.fetched(Some(c)) == Some(c)
    ensures IsRun(r, st, es') && Started(es') == Started(es)
    ensures var s := After(r, st, es);
            var row := r.effect(s.flights[id].op, s.flights[id].cur, salt).row;
            After(r, st, es') == State(s.store.(row := Some(row)), s.flights[id := Reading(Look, row)])
  {
    var f := After(r, st, es).flights[id];
    assert EffectLaw(r, f.op, f.cur, salt);
    es' := Extend(r, st, es, Commit(id, salt));
    es' := Extend(r, st, es', FetchAgain(id));
  }

  /** Its write, and its second read if it makes one. */
  lemma Finish(r: Rules, st: State, es: seq<Event>, id: int, salt: nat) returns (es': seq<Event>)
    requires Lawful(r) && IsRun(r, st, es) && id in After(r, st, es).flights && After(r, st, es).flights[id].InHand?
    requires var f := After(r, st, es).flights[id]; r.sound(f.cur) && r.effect(f.op, f.cur, salt).Rewritten?
    requires forall c: Config :: r.fetched(Some(c)) == Some(c)
    ensures IsRun(r, st, es') && Started(es') == Started(es)
    ensures var s := After(r, st, es);
            var f := s.flights[id];
            var row := r.effect(f.op, f.cur, salt).row;
            && Commits(r, st, es') == Commits(r, st, es) + [Call(f.op, salt)]
            && After(r, st, es')
               == State(Store(Some(row), if ReadsBack(f.op) then r.face(row).ids else s.store.floor), s.flights - {id})
  {
    var f := After(r, st, es).flights[id];
    assert EffectLaw(r, f.op, f.cur, salt);
    es' := Extend(r, st, es, Commit(id, salt));
    if ReadsBack(f.op) {
      es' := Extend(r, st, es', FetchAgain(id));
      es' := Extend(r, st, es', Install(id));
    }
  }

  /** A whole operation inside a run. */
  lemma RunsThrough(r: Rules, st: State, es: seq<Event>, id: int, op: Op, salt: nat) returns (es': seq<Event>)
    requires Lawful(r) && IsRun(r, st, es) && id !in After(r, st, es).flights && !TooLarge(op)
    requires r.current(After(r, st, es).store.row).Some? && r.sound(r.current(After(r, st, es).store.row).value)
    requires r.fetched(After(r, st, es).store.row) == After(r, st, es).store.row
    requires forall c: Config :: r.fetched(Some(c)) == Some(c)
    requires r.effect(op, r.current(After(r, st, es).store.row).value, salt).Rewritten?
    ensures IsRun(r, st, es') && Started(es') == Started(es) + {op}
    ensures Commits(r, st, es') == Commits(r, st, es) + [Call(op, salt)]
    ensures var cur := r.current(After(r, st, es).store.row).value;
            var row := r.effect(op, cur, salt).row;
            After(r, st, es')
            == State(Store(Some(row), r.face(if ReadsBack(op) then row else cur).ids), After(r, st, es).flights)
  {
    var s := After(r, st, es);
    es' := Begin(r, st, es, id, op);
    es' := Finish(r, st, es', id, salt);
    assert After(r, st, es').flights == s.flights;
  }

  ghost predicate Startable(r: Rules, st: Store) {
    && r.current(st.row).Some? && r.sound(r.current(st.row).value) && r.fetched(st.row) == st.row && FloorMatches(r, st)
    && forall c: Config :: r.fetched(Some(c)) == Some(c)
  }

  /** A page view that fetched before an operation and installs after it takes the floor back. */
  lemma LookRaces(r: Rules, st: Store, op: Op, salt: nat) returns (es: seq<Event>)
    requires Lawful(r) && Startable(r, st) && Changes(r, r.current(st.row).value, op, salt) && ReadsBack(op)
             && !TooLarge(op)
    ensures IsRun(r, State(st, map[]), es) && Started(es) == {op} && Quiescent(After(r, State(st, map[]), es))
    ensures !FloorMatches(r, After(r, State(st, map[]), es).store)
  {
    var s0, cur := State(st, map[]), r.current(st.row).value;
    var row := r.effect(op, cur, salt).row;
    assert EffectLaw(r, op, cur, salt);
    es := Extend(r, s0, [], Fetch(1, Look));
    es := RunsThrough(r, s0, es, 2, op, salt);
    es := Extend(r, s0, es, Install(1));
    assert After(r, s0, es) == State(Store(Some(row), r.face(cur).ids), map[]);
  }

  lemma SecondPatch(r: Rules, cur: Config, a: Op, b: Op, salt: nat)
    requires Lawful(r) && r.sound(cur) && a.Patch? && b.Patch?
    requires r.effect(a, cur, salt).Rewritten? && r.effect(b, cur, salt).Rewritten?
    ensures var rowA := r.effect(a, cur, salt).row;
            && r.sound(rowA) && r.current(Some(rowA)) == Some(rowA) && r.effect(b, rowA, salt).Rewritten?
            && var rowB := r.effect(b, rowA, salt).row;
               r.current(Some(rowB)) == Some(rowB) && r.face(rowB).ids == r.face(r.effect(b, cur, salt).row).ids
  {
    var rowA := r.effect(a, cur, salt).row;
    assert EffectLaw(r, a, cur, salt) && AcceptLaw(r, b, cur, rowA, salt) && EffectLaw(r, b, rowA, salt);
  }

  /** Two PATCHes are enough, without any page view: the first fetches its second read, the second runs through, and the
      first installs last. */
  lemma TwoPatchesRace(r: Rules, st: Store, a: Op, b: Op, salt: nat) returns (es: seq<Event>)
    requires Lawful(r) && Startable(r, st) && a.Patch? && b.Patch?
    requires var cur := r.current(st.row).value;
             && r.effect(a, cur, salt).Rewritten? && r.effect(b, cur, salt).Rewritten?
             && r.face(r.effect(a, cur, salt).row).ids != r.face(r.effect(b, cur, salt).row).ids
    ensures IsRun(r, State(st, map[]), es) && Started(es) == {a, b} && Quiescent(After(r, State(st, map[]), es))
    ensures var cur, end := r.current(st.row).value, After(r, State(st, map[]), es).store;
            && r.current(end.row).Some?
            && r.face(r.current(end.row).value).ids == r.face(r.effect(b, cur, salt).row).ids
            && end.floor == r.face(r.effect(a, cur, salt).row).ids
  {
    var s0, cur := State(st, map[]), r.current(st.row).value;
    var rowA := r.effect(a, cur, salt).row;
    SecondPatch(r, cur, a, b, salt);
    var rowB := r.effect(b, rowA, salt).row;
    es := Begin(r, s0, [], 1, a);
    es := WriteAndFetch(r, s0, es, 1, salt);
    assert After(r, s0, es) == State(Store(Some(rowA), st.floor), map[1 := Reading(Look, rowA)]);
    es := RunsThrough(r, s0, es, 2, b, salt);
    es := Extend(r, s0, es, Install(1));
    assert After(r, s0, es) == State(Store(Some(rowB), r.face(rowA).ids), map[]);
  }

  /** An operation that read before another and writes after it restores everything but its own edit.  The floor ends on
      the allowlist installed last. */
  lemma Overtaken(r: Rules, st: Store, slow: Op, slowSalt: nat, fast: Op, fastSalt: nat) returns (es: seq<Event>)
    requires Lawful(r) && Startable(r, st) && !TooLarge(slow) && !TooLarge(fast)
    requires var cur := r.current(st.row).value;
             r.effect(slow, cur, slowSalt).Rewritten? && r.effect(fast, cur, fastSalt).Rewritten?
    ensures IsRun(r, State(st, map[]), es) && Started(es) == {slow, fast}
    ensures Commits(r, State(st, map[]), es) == [Call(fast, fastSalt), Call(slow, slowSalt)]
    ensures var cur := r.current(st.row).value;
            var row, lost := r.effect(slow, cur, slowSalt).row, r.effect(fast, cur, fastSalt).row;
            var seen := if ReadsBack(slow) then row else if ReadsBack(fast) then lost else cur;
            After(r, State(st, map[]), es) == State(Store(Some(row), r.face(seen).ids), map[])
  {
    var s0, cur := State(st, map[]), r.current(st.row).value;
    es := Begin(r, s0, [], 1, slow);
    es := RunsThrough(r, s0, es, 2, fast, fastSalt);
    es := Finish(r, s0, es, 1, slowSalt);
    assert After(r, s0, es).flights == map[];
  }

  // ----- the equivalence -----

  lemma PatchChanges(r: Rules, cur: Config, op: Op, salt: nat)
    requires Lawful(r) && r.sound(cur) && Changes(r, cur, op, salt)
    ensures op.Patch? && ReadsBack(op) && !TooLarge(op)
  {
    assert EffectLaw(r, op, cur, salt);
  }

  lemma SomeChangeRaces(r: Rules, st: Store, ops: set<Op>)
    requires Lawful(r) && Startable(r, st) && !NoneChanges(r, State(st, map[]), ops)
    ensures !RunsEndInStep(r, State(st, map[]), ops)
  {
    var cur := r.current(st.row).value;
    var op, salt: nat :| op in ops && Changes(r, cur, op, salt);
    PatchChanges(r, cur, op, salt);
    var es := LookRaces(r, st, op, salt);
  }

  lemma NoChangeNoSpan(r: Rules, st: Store, ops: set<Op>)
    requires Lawful(r) && Startable(r, st) && NoneChanges(r, State(st, map[]), ops)
    ensures NoRunSpans(r, State(st, map[]), ops)
  {
    var s0, cur := State(st, map[]), r.current(st.row).value;
    forall es | IsRun(r, s0, es) && Started(es) <= ops ensures NeverSpans(r, s0, es) {
      OneAllowlistRuns(r, cur, ops, s0, es);
    }
  }

  lemma NoSpanInStep(r: Rules, st: Store, ops: set<Op>)
    requires Lawful(r) && Startable(r, st) && NoRunSpans(r, State(st, map[]), ops)
    ensures RunsEndInStep(r, State(st, map[]), ops)
  {
    var s0, cur := State(st, map[]), r.current(st.row).value;
    forall es | IsRun(r, s0, es) && Started(es) <= ops && Quiescent(After(r, s0, es))
      ensures FloorMatches(r, After(r, s0, es).store)
    {
      StaysInStep(r, r.face(cur), ops, s0, es);
    }
  }

  lemma SettledStartable(env: Env, st: Store)
    requires Settled(env, st)
    ensures Startable(RulesOf(env), st)
  {
    CurrentNormal(env, st.row);
  }

  /** Main result on the floor, over all runs.  Let any of `ops` and plain reads overlap at will.  The floor is in step
      at the end of every run exactly when no run has a commit that changes the allowlist inside another flight's
      window, and exactly when no operation among them would change the allowlist now stored. */
  lemma AlwaysInStepExactly(env: Env, st: Store, ops: set<Op>)
    requires Settled(env, st)
    ensures var r, s0 := RulesOf(env), State(st, map[]);
            && (RunsEndInStep(r, s0, ops) <==> NoRunSpans(r, s0, ops))
            && (NoRunSpans(r, s0, ops) <==> NoneChanges(r, s0, ops))
  {
    RulesLawful(env);
    SettledStartable(env, st);
    var r, s0 := RulesOf(env), State(st, map[]);
    if NoneChanges(r, s0, ops) {
      NoChangeNoSpan(r, st, ops);
      NoSpanInStep(r, st, ops);
    } else {
      SomeChangeRaces(r, st, ops);
      if NoRunSpans(r, s0, ops) {
        NoSpanInStep(r, st, ops);
      }
    }
  }

  /** What an accepted PATCH does, in terms of the rules. */
  lemma PatchOk(env: Env, st: Store, request: Config, salt: nat)
    requires Settled(env, st) && Apply(env, st, Patch(request), salt).ok
    ensures var effect := RulesOf(env).effect(Patch(request), RulesOf(env).current(st.row).value, salt);
            effect.Rewritten? && RulesOf(env).face(effect.row).ids == CleanIDs(request.publicLibraryIDs)
  {
    PatchEffect(env, request, Current(env, st.row).value, salt);
  }

  lemma SaveOk(env: Env, st: Store, html: string, salt: nat)
    requires Settled(env, st) && ByteLen(html) <= MAX_HTML
    ensures var r := RulesOf(env);
            var effect := r.effect(SaveHTML(html), r.current(st.row).value, salt);
            effect.Rewritten? && r.current(Some(effect.row)) == Some(effect.row)
              && r.face(effect.row) == CurrentFace(env, st)
  {
    SmallEdit(env, SaveHTML(html), Current(env, st.row).value, salt);
    EffectsFollow(env, SaveHTML(html), Current(env, st.row).value, salt);
  }

  /** Two accepted PATCHes with different allowlists can end with the row on one and the floor on the other. */
  lemma PatchesRace(env: Env, st: Store, a: Config, b: Config, salt: nat) returns (es: seq<Event>)
    requires Settled(env, st) && Apply(env, st, Patch(a), salt).ok && Apply(env, st, Patch(b), salt).ok
    requires CleanIDs(a.publicLibraryIDs) != CleanIDs(b.publicLibraryIDs)
    ensures IsRun(RulesOf(env), State(st, map[]), es) && Started(es) == {Patch(a), Patch(b)}
    ensures Quiescent(After(RulesOf(env), State(st, map[]), es))
    ensures Allowlist(RulesOf(env), State(st, map[]), es) == CleanIDs(b.publicLibraryIDs)
    ensures After(RulesOf(env), State(st, map[]), es).store.floor == CleanIDs(a.publicLibraryIDs)
  {
    RulesLawful(env);
    SettledStartable(env, st);
    PatchOk(env, st, a, salt);
    PatchOk(env, st, b, salt);
    es := TwoPatchesRace(RulesOf(env), st, Patch(a), Patch(b), salt);
  }

  /** An HTML save that overlaps a PATCH undoes the PATCH, secret, password and allowlist included, and leaves the floor
      on the allowlist that is no longer stored. */
  lemma HTMLSaveUndoesPatch(env: Env, st: Store, html: string, request: Config, salt: nat) returns (es: seq<Event>)
    requires Settled(env, st) && ByteLen(html) <= MAX_HTML && Apply(env, st, Patch(request), salt).ok
    ensures IsRun(RulesOf(env), State(st, map[]), es) && Started(es) == {SaveHTML(html), Patch(request)}
    ensures var r, end := RulesOf(env), After(RulesOf(env), State(st, map[]), es);
            && Quiescent(end) && end.store.floor == CleanIDs(request.publicLibraryIDs)
            && r.current(end.store.row).Some? && r.face(r.current(end.store.row).value) == CurrentFace(env, st)
  {
    RulesLawful(env);
    SettledStartable(env, st);
    SaveOk(env, st, html, salt);
    PatchOk(env, st, request, salt);
    es := Overtaken(RulesOf(env), st, SaveHTML(html), salt, Patch(request), salt);
  }

  // ----- whole operations -----

  function Read(r: Rules, st: Store): Store {
    var cur := r.current(st.row);
    Store(r.fetched(st.row), if cur.None? then st.floor else r.face(cur.value).ids)
  }

  /** A whole operation in terms of its pieces. */
  function Whole(r: Rules, st: Store, op: Op, salt: nat): Store {
    if TooLarge(op) then st
    else
      var read, cur := Read(r, st), r.current(st.row);
      if cur.None? || !r.effect(op, cur.value, salt).Rewritten? then read
      else
        var written := read.(row := Some(r.effect(op, cur.value, salt).row));
        if ReadsBack(op) then Read(r, written) else written
  }

  lemma WholeIsApply(env: Env, st: Store, op: Op, salt: nat)
    ensures Whole(RulesOf(env), st, op, salt) == Apply(env, st, op, salt).store
  {
  }

  lemma Opening(r: Rules, st: Store, op: Op) returns (es: seq<Event>)
    requires !TooLarge(op) && r.current(st.row).Some?
    ensures IsRun(r, State(st, map[]), es) && Started(es) == {op}
    ensures After(r, State(st, map[]), es) == State(Read(r, st), map[1 := InHand(op, r.current(st.row).value)])
  {
    es := Extend(r, State(st, map[]), [], Fetch(1, Operate(op)));
    es := Extend(r, State(st, map[]), es, Install(1));
  }

  lemma SecondReadStates(r: Rules, written: Store)
    ensures var s, cur := State(written, map[1 := Written]), r.current(written.row);
            var f := Next(r, s, FetchAgain(1));
            && Enabled(s, FetchAgain(1))
            && (cur.None? ==> f == State(Read(r, written), map[]))
            && (cur.Some? ==> Enabled(f, Install(1)) && Next(r, f, Install(1)) == State(Read(r, written), map[]))
  {
    var s, cur := State(written, map[1 := Written]), r.current(written.row);
    if cur.Some? {
      var f := Next(r, s, FetchAgain(1));
      assert f == State(written.(row := r.fetched(written.row)), map[1 := Reading(Look, cur.value)]);
      assert f.flights - {1} == map[];
    } else {
      assert s.flights - {1} == map[];
    }
  }

  lemma SecondRead(r: Rules, s0: State, es: seq<Event>, written: Store) returns (es': seq<Event>)
    requires IsRun(r, s0, es) && After(r, s0, es) == State(written, map[1 := Written])
    ensures IsRun(r, s0, es') && Started(es') == Started(es) && After(r, s0, es') == State(Read(r, written), map[])
  {
    SecondReadStates(r, written);
    es' := Extend(r, s0, es, FetchAgain(1));
    if r.current(written.row).Some? {
      es' := Extend(r, s0, es', Install(1));
    }
  }

  lemma WholeIsRun(r: Rules, st: Store, op: Op, salt: nat) returns (es: seq<Event>)
    ensures IsRun(r, State(st, map[]), es) && Started(es) == {op}
    ensures After(r, State(st, map[]), es) == State(Whole(r, st, op, salt), map[])
  {
    var s0 := State(st, map[]);
    if TooLarge(op) || r.current(st.row).None? {
      es := Extend(r, s0, [], Fetch(1, Operate(op)));
    } else {
      es := Opening(r, st, op);
      var effect := r.effect(op, r.current(st.row).value, salt);
      es := Extend(r, s0, es, Commit(1, salt));
      if effect.Rewritten? && ReadsBack(op) {
        es := SecondRead(r, s0, es, Read(r, st).(row := Some(effect.row)));
      }
    }
  }

  /** One operation alone is such a run: the whole operations of ConfigRuns are interleavings without overlap. */
  lemma ApplyIsRun(env: Env, st: Store, op: Op, salt: nat) returns (es: seq<Event>)
    ensures IsRun(RulesOf(env), State(st, map[]), es) && Started(es) == {op}
    ensures After(RulesOf(env), State(st, map[]), es) == State(Apply(env, st, op, salt).store, map[])
  {
    es := WholeIsRun(RulesOf(env), st, op, salt);
    WholeIsApply(env, st, op, salt);
  }
}
