/** When interleaved configuration operations lose an edit: the row they leave against the row the same operations leave
    one at a time, in the order of their writes. */
module ConfigSerial {
  import opened Text
  import opened LibraryScope
  import opened AppConfig
  import opened ConfigRuns
  import opened ConfigInterleaving

  /** Whole operations one after the other. */
  function Replay(r: Rules, st: Store, calls: seq<Call>): Store {
    if calls == [] then st
    else
      var last := calls[|calls| - 1];
      Whole(r, Replay(r, st, calls[..|calls| - 1]), last.op, last.salt)
  }

  /** The run leaves the row that its commits leave one at a time. */
  ghost predicate LosesNothing(r: Rules, st: Store, es: seq<Event>) {
    After(r, State(st, map[]), es).store.row == Replay(r, st, Commits(r, State(st, map[]), es)).row
  }

  ghost predicate RunsLoseNothing(r: Rules, st: Store, ops: set<Op>) {
    forall es :: IsRun(r, State(st, map[]), es) && Started(es) <= ops ==> LosesNothing(r, st, es)
  }

  /** The same of the runs at whose end nothing is under way. */
  ghost predicate RestingRunsLoseNothing(r: Rules, st: Store, ops: set<Op>) {
    forall es :: IsRun(r, State(st, map[]), es) && Started(es) <= ops && Quiescent(After(r, State(st, map[]), es)) ==>
      LosesNothing(r, st, es)
  }

  /** What p writes is the same whether or not q wrote before it read. */
  ghost predicate Unaffected(r: Rules, cur: Config, p: Op, s: nat, q: Op, t: nat) {
    r.effect(p, cur, s).Rewritten? && r.effect(q, cur, t).Rewritten? ==>
      r.effect(p, r.effect(q, cur, t).row, s) == r.effect(p, cur, s)
  }

  ghost predicate AllUnaffected(r: Rules, cur: Config, ops: set<Op>) {
    forall p, q, s: nat, t: nat :: p in ops && q in ops ==> Unaffected(r, cur, p, s, q, t)
  }

  // ----- if no operation affects another -----

  /** The starting configuration, or what one operation makes of it. */
  ghost predicate OneEdit(r: Rules, cur: Config, ops: set<Op>, c: Config) {
    c == cur || exists q, t: nat :: q in ops && r.effect(q, cur, t) == Rewritten(c)
  }

  /** Whatever of these an operation reads, it does the same. */
  lemma SameEffect(r: Rules, cur: Config, ops: set<Op>, p: Op, s: nat, c: Config)
    requires Lawful(r) && r.sound(cur) && AllUnaffected(r, cur, ops) && p in ops && OneEdit(r, cur, ops, c)
    ensures r.sound(c)
    ensures r.effect(p, c, s).Rewritten? <==> r.effect(p, cur, s).Rewritten?
    ensures r.effect(p, cur, s).Rewritten? ==> r.effect(p, c, s) == r.effect(p, cur, s)
  {
    if c != cur {
      var q, t: nat :| q in ops && r.effect(q, cur, t) == Rewritten(c);
      assert EffectLaw(r, q, cur, t);
      assert AcceptLaw(r, p, c, cur, s) && AcceptLaw(r, p, cur, c, s);
      assert Unaffected(r, cur, p, s, q, t);
    }
  }

  ghost predicate HoldsOneEdit(r: Rules, cur: Config, ops: set<Op>, f: Flight) {
    match f
    case Reading(task, c) => OneEdit(r, cur, ops, c) && (task.Operate? ==> task.op in ops && !TooLarge(task.op))
    case InHand(op, c) => OneEdit(r, cur, ops, c) && op in ops && !TooLarge(op)
    case Written => true
  }

  /** Every copy about is such a configuration, and the row is the replayed one. */
  ghost predicate SerialInv(r: Rules, cur: Config, ops: set<Op>, st: State, replayed: Option<Config>) {
    && st.store.row == replayed && r.fetched(replayed) == replayed
    && r.current(replayed).Some? && OneEdit(r, cur, ops, r.current(replayed).value)
    && (forall id :: id in st.flights ==> HoldsOneEdit(r, cur, ops, st.flights[id]))
  }

  ghost predicate FetchKeeps(r: Rules) {
    forall c: Config :: r.fetched(Some(c)) == Some(c)
  }

  lemma CommitSerial(r: Rules, cur: Config, ops: set<Op>, st: State, e: Event, replayed: Store)
    requires Lawful(r) && FetchKeeps(r) && r.sound(cur) && AllUnaffected(r, cur, ops)
    requires SerialInv(r, cur, ops, st, replayed.row) && Enabled(st, e) && e.Commit?
    ensures SerialInv(r, cur, ops, Next(r, st, e), Whole(r, replayed, st.flights[e.id].op, e.salt).row)
  {
    var f := st.flights[e.id];
    var c := r.current(replayed.row).value;
    assert HoldsOneEdit(r, cur, ops, f);
    SameEffect(r, cur, ops, f.op, e.salt, f.cur);
    SameEffect(r, cur, ops, f.op, e.salt, c);
    if r.effect(f.op, cur, e.salt).Rewritten? {
      var row := r.effect(f.op, cur, e.salt).row;
      assert EffectLaw(r, f.op, cur, e.salt);
      assert OneEdit(r, cur, ops, row);
      assert r.fetched(Some(row)) == Some(row);
    }
  }

  lemma OtherSerial(r: Rules, cur: Config, ops: set<Op>, st: State, e: Event, replayed: Option<Config>)
    requires Lawful(r) && SerialInv(r, cur, ops, st, replayed) && !e.Commit?
    requires e.Fetch? && e.task.Operate? ==> e.task.op in ops
    ensures SerialInv(r, cur, ops, Next(r, st, e), replayed)
  {
    if Enabled(st, e) && e.Install? {
      assert HoldsOneEdit(r, cur, ops, st.flights[e.id]);
    }
  }

  lemma {:induction false} SerialRow(r: Rules, st: Store, cur: Config, ops: set<Op>, es: seq<Event>)
    requires Lawful(r) && Startable(r, st) && cur == r.current(st.row).value && AllUnaffected(r, cur, ops)
    requires IsRun(r, State(st, map[]), es) && Started(es) <= ops
    ensures SerialInv(r, cur, ops, After(r, State(st, map[]), es), Replay(r, st, Commits(r, State(st, map[]), es)).row)
    decreases |es|
  {
    if es != [] {
      var s0, e := State(st, map[]), Last(es);
      LastStarted(es);
      SerialRow(r, st, cur, ops, Init(es));
      var before, calls := After(r, s0, Init(es)), Commits(r, s0, Init(es));
      if e.Commit? {
        var call := Call(before.flights[e.id].op, e.salt);
        assert Commits(r, s0, es) == calls + [call] && (calls + [call])[..|calls|] == calls;
        CommitSerial(r, cur, ops, before, e, Replay(r, st, calls));
      } else {
        assert Commits(r, s0, es) == calls;
        OtherSerial(r, cur, ops, before, e, Replay(r, st, calls).row);
      }
    }
  }

  lemma NothingLost(r: Rules, st: Store, ops: set<Op>)
    requires Lawful(r) && Startable(r, st) && AllUnaffected(r, r.current(st.row).value, ops)
    ensures RunsLoseNothing(r, st, ops)
  {
    forall es | IsRun(r, State(st, map[]), es) && Started(es) <= ops ensures LosesNothing(r, st, es) {
      SerialRow(r, st, r.current(st.row).value, ops, es);
    }
  }

  // ----- if one does -----

  lemma ReplayTwo(r: Rules, st: Store, q: Op, t: nat, p: Op, s: nat)
    requires Lawful(r) && Startable(r, st) && !TooLarge(p) && !TooLarge(q)
    requires var cur := r.current(st.row).value; r.effect(q, cur, t).Rewritten? && r.effect(p, cur, s).Rewritten?
    ensures var cur := r.current(st.row).value;
            var between := r.effect(q, cur, t).row;
            r.effect(p, between, s).Rewritten?
            && Replay(r, st, [Call(q, t), Call(p, s)]).row == Some(r.effect(p, between, s).row)
  {
    var cur := r.current(st.row).value;
    var between := r.effect(q, cur, t).row;
    assert EffectLaw(r, q, cur, t) && AcceptLaw(r, p, cur, between, s);
    var calls, first := [Call(q, t), Call(p, s)], [Call(q, t)];
    assert calls[..1] == first && first[..0] == [];
    assert r.fetched(Some(between)) == Some(between);
    assert Replay(r, st, first) == Whole(r, st, q, t);
    assert Replay(r, st, first).row == Some(between);
  }

  /** Started before another operation and written after it, an affected operation loses the other's edit. */
  lemma AffectedLoses(r: Rules, st: Store, p: Op, s: nat, q: Op, t: nat) returns (es: seq<Event>)
    requires Lawful(r) && Startable(r, st) && !TooLarge(p) && !TooLarge(q)
    requires !Unaffected(r, r.current(st.row).value, p, s, q, t)
    ensures IsRun(r, State(st, map[]), es) && Started(es) == {p, q} && Quiescent(After(r, State(st, map[]), es))
    ensures !LosesNothing(r, st, es)
  {
    es := Overtaken(r, st, p, s, q, t);
    ReplayTwo(r, st, q, t, p, s);
  }

  lemma SomethingLost(r: Rules, st: Store, ops: set<Op>)
    requires Lawful(r) && Startable(r, st) && !AllUnaffected(r, r.current(st.row).value, ops)
    requires forall op, s: nat :: TooLarge(op) ==> !r.effect(op, r.current(st.row).value, s).Rewritten?
    ensures !RestingRunsLoseNothing(r, st, ops)
  {
    var cur := r.current(st.row).value;
    var p, q, s: nat, t: nat :| p in ops && q in ops && !Unaffected(r, cur, p, s, q, t);
    var es := AffectedLoses(r, st, p, s, q, t);
  }

  // ----- the equivalence -----

  ghost predicate StepsAlike(r: Rules, step: StepFunction) {
    forall st: Store, op: Op, salt: nat :: step(st, op, salt).store == Whole(r, st, op, salt)
  }

  lemma {:induction false} ReplayIsRunOf(r: Rules, step: StepFunction, st: Store, calls: seq<Call>)
    requires StepsAlike(r, step)
    ensures Replay(r, st, calls) == Run(step, st, calls)
    decreases |calls|
  {
    if calls != [] {
      var init, last := calls[..|calls| - 1], calls[|calls| - 1];
      ReplayIsRunOf(r, step, st, init);
      RunSnoc(step, st, init, last);
      assert calls == init + [last];
      var before := Run(step, st, init);
      assert step(before, last.op, last.salt).store == Whole(r, before, last.op, last.salt);
    }
  }

  lemma ReplayIsRun(env: Env, st: Store, calls: seq<Call>)
    ensures Replay(RulesOf(env), st, calls) == Run(Stepper(env), st, calls)
  {
    var r, step := RulesOf(env), Stepper(env);
    forall st: Store, op: Op, salt: nat ensures step(st, op, salt).store == Whole(r, st, op, salt) {
      WholeIsApply(env, st, op, salt);
    }
    ReplayIsRunOf(r, step, st, calls);
  }

  lemma {:induction false} RunSnoc(step: StepFunction, st: Store, calls: seq<Call>, last: Call)
    ensures Run(step, st, calls + [last]) == step(Run(step, st, calls), last.op, last.salt).store
    decreases |calls|
  {
    if calls == [] {
      assert [] + [last] == [last] && [last][1..] == [];
    } else {
      assert (calls + [last])[1..] == calls[1..] + [last];
      RunSnoc(step, step(st, calls[0].op, calls[0].salt).store, calls[1..], last);
    }
  }

  /** Main result.  Let any of `ops` overlap at will, with each other and with plain reads.  Every run leaves the row
      that the same operations leave one at a time in the order of their writes, exactly when none of them writes
      anything else for having read after another's write; and if any does, a run that has come to rest shows it. */
  lemma NothingLostExactly(env: Env, st: Store, ops: set<Op>)
    requires Settled(env, st)
    ensures var r, cur := RulesOf(env), Current(env, st.row).value;
            && (RunsLoseNothing(r, st, ops) <==> AllUnaffected(r, cur, ops))
            && (RestingRunsLoseNothing(r, st, ops) <==> AllUnaffected(r, cur, ops))
    ensures forall es :: LosesNothing(RulesOf(env), st, es) <==>
              After(RulesOf(env), State(st, map[]), es).store.row
              == Run(Stepper(env), st, Commits(RulesOf(env), State(st, map[]), es)).row
  {
    var r := RulesOf(env);
    RulesLawful(env);
    SettledStartable(env, st);
    if AllUnaffected(r, Current(env, st.row).value, ops) {
      NothingLost(r, st, ops);
    } else {
      TooLargeRefused(env, st);
      SomethingLost(r, st, ops);
    }
    forall es ensures LosesNothing(r, st, es) <==>
        After(r, State(st, map[]), es).store.row == Run(Stepper(env), st, Commits(r, State(st, map[]), es)).row
    {
      ReplayIsRun(env, st, Commits(r, State(st, map[]), es));
    }
  }

  lemma TooLargeRefused(env: Env, st: Store)
    requires Settled(env, st)
    ensures forall op, s: nat ::
            TooLarge(op) ==> !RulesOf(env).effect(op, RulesOf(env).current(st.row).value, s).Rewritten?
  {
  }

  // ----- what PATCHes can lose -----

  /** A PATCH reads of the stored configuration only the secret and the hash it leaves out. */
  predicate KeepsAlike(request: Config, a: Config, b: Config) {
    && (request.tokenSecret != "" || a.tokenSecret == b.tokenSecret)
    && (request.catalogPassword != "" || a.catalogPasswordHash == b.catalogPasswordHash)
  }

  lemma PatchReads(env: Env, request: Config, a: Config, b: Config, salt: nat)
    requires Sound(env, a) && Sound(env, b) && FaceOf(a).listener == FaceOf(b).listener
    requires EffectOf(env, Patch(request), a, salt).Rewritten?
    ensures EffectOf(env, Patch(request), a, salt) == EffectOf(env, Patch(request), b, salt)
            <==> KeepsAlike(request, a, b)
  {
    PatchAcceptedAlike(env, request, a, b, salt);
    PatchNext(env, a, request);
    PatchNext(env, b, request);
    UpdateFace(env, PatchEdit(env, a, request).config, salt);
    UpdateFace(env, PatchEdit(env, b, request).config, salt);
    if KeepsAlike(request, a, b) {
      CompletedAlike(request, a, b);
      ListenerAlike(a, b, Normalized(Completed(a, request)), Normalized(Completed(b, request)));
    }
  }

  lemma CompletedAlike(request: Config, a: Config, b: Config)
    requires KeepsAlike(request, a, b)
    ensures Completed(a, request) == Completed(b, request)
  {
  }

  /** So a PATCH that leaves the secret out and overlaps one that rotates it can put the old secret back. */
  lemma PatchUndoesRotation(env: Env, st: Store, slow: Config, fast: Config, salt: nat) returns (es: seq<Event>)
    requires Settled(env, st) && Apply(env, st, Patch(slow), salt).ok && Apply(env, st, Patch(fast), salt).ok
    requires slow.tokenSecret == "" && fast.tokenSecret !in ["", CurrentFace(env, st).secret]
    ensures IsRun(RulesOf(env), State(st, map[]), es) && Started(es) == {Patch(slow), Patch(fast)}
    ensures Commits(RulesOf(env), State(st, map[]), es) == [Call(Patch(fast), salt), Call(Patch(slow), salt)]
    ensures var r, end := RulesOf(env), After(RulesOf(env), State(st, map[]), es);
            && Quiescent(end) && r.current(end.store.row).Some?
            && r.face(r.current(end.store.row).value).secret == CurrentFace(env, st).secret
            && !LosesNothing(r, st, es)
  {
    var r := RulesOf(env);
    RulesLawful(env);
    SettledStartable(env, st);
    PatchKeepsSecret(env, st, slow, salt);
    RotationDiffers(env, st, slow, fast, salt);
    es := Overtaken(r, st, Patch(slow), salt, Patch(fast), salt);
    ReplayTwo(r, st, Patch(fast), salt, Patch(slow), salt);
  }

  lemma PatchKeepsSecret(env: Env, st: Store, request: Config, salt: nat)
    requires Settled(env, st) && Apply(env, st, Patch(request), salt).ok && request.tokenSecret == ""
    ensures var kept := EffectOf(env, Patch(request), Current(env, st.row).value, salt);
            && kept.Rewritten? && Current(env, Some(kept.row)) == Some(kept.row)
            && FaceOf(kept.row).secret == CurrentFace(env, st).secret
  {
    var cur := Current(env, st.row).value;
    PatchEffect(env, request, cur, salt);
    PatchNext(env, cur, request);
    UpdateFace(env, PatchEdit(env, cur, request).config, salt);
  }

  lemma PatchSetsSecret(env: Env, st: Store, request: Config, salt: nat)
    requires Settled(env, st) && Apply(env, st, Patch(request), salt).ok && request.tokenSecret != ""
    ensures var cur := Current(env, st.row).value;
            var changed := EffectOf(env, Patch(request), cur, salt);
            && changed.Rewritten? && Sound(env, cur) && Sound(env, changed.row)
            && FaceOf(changed.row).listener == FaceOf(cur).listener && changed.row.tokenSecret == request.tokenSecret
  {
    var cur := Current(env, st.row).value;
    PatchEffect(env, request, cur, salt);
    PatchNext(env, cur, request);
    UpdateFace(env, PatchEdit(env, cur, request).config, salt);
  }

  lemma RotationDiffers(env: Env, st: Store, slow: Config, fast: Config, salt: nat)
    requires Settled(env, st) && Apply(env, st, Patch(slow), salt).ok && Apply(env, st, Patch(fast), salt).ok
    requires slow.tokenSecret == "" && fast.tokenSecret !in ["", CurrentFace(env, st).secret]
    ensures var cur := Current(env, st.row).value;
            var lost := EffectOf(env, Patch(fast), cur, salt);
            lost.Rewritten? && EffectOf(env, Patch(slow), lost.row, salt) != EffectOf(env, Patch(slow), cur, salt)
  {
    var cur := Current(env, st.row).value;
    PatchSetsSecret(env, st, fast, salt);
    PatchKeepsSecret(env, st, slow, salt);
    PatchReads(env, slow, cur, EffectOf(env, Patch(fast), cur, salt).row, salt);
  }
}
