/** What the configuration operations keep after the first successful Bootstrap, one at a time. */
module ConfigRuns {
  import opened Text
  import opened LibraryScope
  import opened Password
  import opened AppConfig

  /** What the properties observe of a configuration; `ids` is the floor it sets. */
  datatype Face = Face(secret: string, hash: string, listener: (int, string), ids: seq<int>)

  function FaceOf(c: Config): Face {
    Face(c.tokenSecret, c.catalogPasswordHash, (c.publicPort, TrimSpace(c.standaloneHTTPListen)),
         CleanIDs(c.publicLibraryIDs))
  }

  /** A configuration as the first Bootstrap leaves it: it normalises to itself, has a secret and no plaintext. */
  predicate Sound(env: Env, c: Config) {
    Normal(env, c) && c.tokenSecret != "" && c.catalogPassword == ""
  }

  predicate Ready(env: Env, row: Option<Config>) {
    Current(env, row).Some? && Sound(env, Current(env, row).value)
  }

  /** The floor in memory is the persisted allowlist. */
  predicate InStep(env: Env, st: Store) {
    Current(env, st.row).Some? && st.floor == CleanIDs(Current(env, st.row).value.publicLibraryIDs)
  }

  type HashFunction = (string, nat) -> Hashed

  function Hasher(env: Env): HashFunction {
    (password: string, salt: nat) => HashCatalogPassword(env.bcrypt, password, salt)
  }

  /** The password an operation submits, "" for none. */
  function Submitted(op: Op): string {
    match op
    case Patch(request) => request.catalogPassword
    case Rehash(plaintext) => plaintext
    case _ => ""
  }

  /** What one operation may do to the observed fields. */
  ghost predicate Follows(hash: HashFunction, op: Op, a: Face, salt: nat, b: Face) {
    && b.listener == a.listener
    && (b.secret == a.secret || (op.Patch? && op.request.tokenSecret != "" && b.secret == op.request.tokenSecret))
    && (b.hash == a.hash || (op.Clear? && b.hash == "")
        || (Submitted(op) != "" && hash(Submitted(op), salt) == Hash(b.hash))
        || (op.Rehash? && b.hash == ""))
    && (b.ids == a.ids || op.Patch?)
    && (op.Boot? ==> b == a)
  }

  /** The secret is the one at the start or one that a PATCH supplied. */
  ghost predicate SecretKnown(start: string, ops: set<Op>, secret: string) {
    secret == start || exists op :: op in ops && op.Patch? && op.request.tokenSecret == secret
  }

  /** The hash is the one at the start, or empty, or the hash of a submitted password. */
  ghost predicate HashKnown(hash: HashFunction, start: string, ops: set<Op>, stored: string) {
    || stored == start || stored == ""
    || exists op, salt: nat :: op in ops && Submitted(op) != "" && hash(Submitted(op), salt) == Hash(stored)
  }

  ghost predicate Known(hash: HashFunction, a: Face, ops: set<Op>, b: Face) {
    b.listener == a.listener && SecretKnown(a.secret, ops, b.secret) && HashKnown(hash, a.hash, ops, b.hash)
  }

  lemma KnownThenStep(hash: HashFunction, a: Face, ops: set<Op>, b: Face, op: Op, salt: nat, c: Face)
    requires Known(hash, a, ops, b) && op in ops && Follows(hash, op, b, salt, c)
    ensures Known(hash, a, ops, c)
  {
  }

  // ----- one operation -----

  /** Over a sound configuration Bootstrap has nothing to write. */
  lemma BootKeeps(env: Env, cur: Config, manifest: Config, freshSecret: string, salt: nat)
    requires Sound(env, cur)
    ensures BootEdit(env, cur, manifest, freshSecret, salt) == Keep
  {
    assert cur != Normalized(DefaultAppConfig());
  }

  /** What UpdateConfig makes of a configuration, as observed. */
  lemma UpdateFace(env: Env, cfg: Config, salt: nat)
    requires Updated(env, cfg, salt).Some? && cfg.tokenSecret != ""
    ensures var row := Updated(env, cfg, salt).value;
            && Sound(env, row) && Current(env, Some(row)) == Some(row)
            && FaceOf(row).secret == cfg.tokenSecret && FaceOf(row).ids == CleanIDs(cfg.publicLibraryIDs)
            && (Normal(env, cfg) ==> FaceOf(row).listener == FaceOf(cfg).listener)
            && (if cfg.catalogPassword == "" then row.catalogPasswordHash == cfg.catalogPasswordHash
                else HashCatalogPassword(env.bcrypt, cfg.catalogPassword, salt) == Hash(row.catalogPasswordHash))
  {
    UpdateReadsBack(env, cfg, salt);
    NormalizeIdempotent(env, cfg);
    NormalKeepsPassword(env, cfg);
  }

  lemma PatchNext(env: Env, cur: Config, request: Config)
    requires Sound(env, cur) && PatchEdit(env, cur, request).Write?
    ensures var next := PatchEdit(env, cur, request).config;
            && Normal(env, next) && FaceOf(next).listener == FaceOf(cur).listener
            && next.tokenSecret == (if request.tokenSecret == "" then cur.tokenSecret else request.tokenSecret)
            && next.catalogPassword == request.catalogPassword
            && (request.catalogPassword == "" ==> next.catalogPasswordHash == cur.catalogPasswordHash)
            && CleanIDs(next.publicLibraryIDs) == CleanIDs(request.publicLibraryIDs)
  {
    NormalizeIdempotent(env, Completed(cur, request));
    NormalKeepsPassword(env, Completed(cur, request));
  }

  /** An operation on a sound configuration writes a sound row, which reads as itself and follows from what was read. */
  ghost predicate EffectFollows(env: Env, op: Op, cur: Config, salt: nat) {
    var effect := EffectOf(env, op, cur, salt);
    effect.Rewritten? ==>
      && Sound(env, effect.row) && Current(env, Some(effect.row)) == Some(effect.row)
      && Follows(Hasher(env), op, FaceOf(cur), salt, FaceOf(effect.row))
  }

  lemma PatchEffect(env: Env, request: Config, cur: Config, salt: nat)
    requires Sound(env, cur) && EffectOf(env, Patch(request), cur, salt).Rewritten?
    ensures EffectFollows(env, Patch(request), cur, salt)
    ensures FaceOf(EffectOf(env, Patch(request), cur, salt).row).ids == CleanIDs(request.publicLibraryIDs)
  {
    PatchNext(env, cur, request);
    UpdateFace(env, PatchEdit(env, cur, request).config, salt);
  }

  /** The normalised request differs between two sound configurations only in the secret and hash it keeps. */
  lemma PatchAcceptedAlike(env: Env, request: Config, a: Config, b: Config, salt: nat)
    requires Sound(env, a) && Sound(env, b) && FaceOf(a).listener == FaceOf(b).listener
    requires EffectOf(env, Patch(request), a, salt).Rewritten?
    ensures EffectOf(env, Patch(request), b, salt).Rewritten?
    ensures FaceOf(EffectOf(env, Patch(request), a, salt).row).ids
            == FaceOf(EffectOf(env, Patch(request), b, salt).row).ids
  {
    PatchEditAlike(env, request, a, b);
    PatchNext(env, a, request);
    PatchNext(env, b, request);
    UpdateAlike(env, PatchEdit(env, a, request).config, PatchEdit(env, b, request).config, salt);
    PatchEffect(env, request, a, salt);
    PatchEffect(env, request, b, salt);
  }

  lemma AcceptableAlike(env: Env, x: Config, y: Config, b: Config)
    requires Acceptable(env, x) && Acceptable(env, b)
    requires x.standaloneHTTPListen == y.standaloneHTTPListen && x.publicPort == y.publicPort
             && x.publicBaseURL == y.publicBaseURL
    requires y.tokenSecret == x.tokenSecret || y.tokenSecret == b.tokenSecret
    ensures Acceptable(env, y)
  {
    var listen := WithListen(x).standaloneHTTPListen;
    assert WithListen(y).standaloneHTTPListen == listen;
    assert listen != "" ==> ValidListenAddr(env, listen);
    assert LongEnough(y.tokenSecret) by {
      assert LongEnough(x.tokenSecret) && LongEnough(b.tokenSecret);
    }
  }

  lemma NormalListenAlike(x: Config, y: Config)
    requires x.standaloneHTTPListen == y.standaloneHTTPListen && x.publicPort == y.publicPort
    ensures Normalized(x).standaloneHTTPListen == Normalized(y).standaloneHTTPListen
    ensures Normalized(x).publicPort == Normalized(y).publicPort
  {
    assert WithListen(x).standaloneHTTPListen == WithListen(y).standaloneHTTPListen;
  }

  lemma CompletedFields(cur: Config, request: Config)
    ensures var x := Completed(cur, request);
            && x.standaloneHTTPListen == request.standaloneHTTPListen && x.publicPort == request.publicPort
            && x.publicBaseURL == request.publicBaseURL
            && x.tokenSecret == if request.tokenSecret == "" then cur.tokenSecret else request.tokenSecret
  {
  }

  lemma PatchEditAlike(env: Env, request: Config, a: Config, b: Config)
    requires Sound(env, b) && FaceOf(a).listener == FaceOf(b).listener && PatchEdit(env, a, request).Write?
    ensures PatchEdit(env, b, request).Write?
  {
    var x, y := Completed(a, request), Completed(b, request);
    CompletedFields(a, request);
    CompletedFields(b, request);
    AcceptableAlike(env, x, y, b);
    NormalListenAlike(x, y);
    ListenerAlike(a, b, Normalized(x), Normalized(y));
  }

  lemma ListenerAlike(a: Config, b: Config, x: Config, y: Config)
    requires FaceOf(a).listener == FaceOf(b).listener
    requires x.standaloneHTTPListen == y.standaloneHTTPListen && x.publicPort == y.publicPort
    ensures LiveListenerChange(a, x) <==> LiveListenerChange(b, y)
  {
  }

  lemma UpdateAlike(env: Env, a: Config, b: Config, salt: nat)
    requires Normal(env, a) && Normal(env, b) && a.catalogPassword == b.catalogPassword && Updated(env, a, salt).Some?
    ensures Updated(env, b, salt).Some?
  {
  }

  lemma SmallEdit(env: Env, op: Op, cur: Config, salt: nat)
    requires Sound(env, cur) && (op.SaveHTML? || op.Clear? || op.Rehash?) && Edit(env, op, cur, salt).Write?
    ensures var cfg := Edit(env, op, cur, salt).config;
            && Sound(env, cfg) && FaceOf(cfg) == FaceOf(cur).(hash := cfg.catalogPasswordHash)
            && Updated(env, cfg, salt) == Some(cfg.(databaseURL := "", catalogPasswordSet := false))
  {
    NormalForm(env, cur, Edit(env, op, cur, salt).config);
  }

  /** Whether an operation is accepted depends on what it read only through the listener. */
  lemma AcceptedAlike(env: Env, op: Op, a: Config, b: Config, salt: nat)
    requires Sound(env, a) && Sound(env, b) && FaceOf(a).listener == FaceOf(b).listener
    requires EffectOf(env, op, a, salt).Rewritten?
    ensures EffectOf(env, op, b, salt).Rewritten?
    ensures op.Patch? ==> FaceOf(EffectOf(env, op, a, salt).row).ids == FaceOf(EffectOf(env, op, b, salt).row).ids
  {
    match op
    case Boot(manifest, freshSecret) => BootKeeps(env, a, manifest, freshSecret, salt);
    case Patch(request) => PatchAcceptedAlike(env, request, a, b, salt);
    case _ => SmallEdit(env, op, b, salt);
  }

  lemma EffectsFollow(env: Env, op: Op, cur: Config, salt: nat)
    requires Sound(env, cur)
    ensures EffectFollows(env, op, cur, salt)
  {
    if EffectOf(env, op, cur, salt).Rewritten? {
      match op
      case Boot(manifest, freshSecret) => BootKeeps(env, cur, manifest, freshSecret, salt);
      case Patch(request) => PatchEffect(env, request, cur, salt);
      case _ =>
        SmallEdit(env, op, cur, salt);
        UpdateFace(env, Edit(env, op, cur, salt).config, salt);
    }
  }

  lemma CurrentNormal(env: Env, row: Option<Config>)
    requires Current(env, row).Some?
    ensures Normal(env, Current(env, row).value) && Current(env, row).value.databaseURL == ""
    ensures row.Some? ==> Current(env, row).value.catalogPassword == row.value.catalogPassword
  {
    NormalizeIdempotent(env, Decoded(row));
    NormalKeepsPassword(env, Decoded(row));
  }

  /** A row from which the properties start, with the floor in step. */
  predicate Settled(env: Env, st: Store) {
    st.row.Some? && Ready(env, st.row) && InStep(env, st)
  }

  function CurrentFace(env: Env, st: Store): Face
    requires Settled(env, st)
  {
    FaceOf(Current(env, st.row).value)
  }

  /** Reading a settled store changes nothing. */
  lemma ReadKeeps(env: Env, st: Store)
    requires Settled(env, st)
    ensures AfterRead(env, st) == st
  {
  }

  /** A row an operation wrote reads as itself. */
  lemma SettledReads(env: Env, st: Store)
    requires Settled(env, st)
    ensures var read := Current(env, st.row).value;
            read.catalogPassword == "" && read.catalogPasswordHash == st.row.value.catalogPasswordHash
            && read.catalogPasswordRequired == st.row.value.catalogPasswordRequired
  {
    NormalizeExactly(env, Decoded(st.row));
  }

  lemma EndKeeps(env: Env, st: Store, op: Op, row: Config)
    requires Sound(env, row)
    ensures st.row.Some? && Current(env, Some(row)) == Some(row)
            && (!ReadsBack(op) ==> CleanIDs(row.publicLibraryIDs) == st.floor)
            ==> Settled(env, AfterEffect(env, st, op, Rewritten(row)).store)
                && AfterEffect(env, st, op, Rewritten(row)).store.row == Some(row)
  {
  }

  /** One whole operation keeps the store settled. */
  lemma StepKeeps(env: Env, st: Store, op: Op, salt: nat)
    requires Settled(env, st)
    ensures Settled(env, Apply(env, st, op, salt).store)
    ensures Follows(Hasher(env), op, CurrentFace(env, st), salt, CurrentFace(env, Apply(env, st, op, salt).store))
  {
    var cur := Current(env, st.row).value;
    ReadKeeps(env, st);
    EffectsFollow(env, op, cur, salt);
    var effect := EffectOf(env, op, cur, salt);
    if effect.Rewritten? {
      assert !op.Patch? ==> FaceOf(effect.row).ids == FaceOf(cur).ids;
      EndKeeps(env, st, op, effect.row);
    }
  }

  // ----- bootstrapping -----

  lemma BootEditSound(env: Env, cur: Config, manifest: Config, freshSecret: string, salt: nat)
    requires freshSecret != ""
    ensures match BootEdit(env, cur, manifest, freshSecret, salt)
            case Keep => cur.tokenSecret != "" && cur.catalogPassword == ""
            case Write(cfg) => cfg.tokenSecret != "" && cfg.catalogPassword == ""
            case Refuse => true
  {
  }

  /** Main result, first half.  Whatever the row held before, legacy plaintext included, a Bootstrap that succeeds
      leaves a sound row with the floor in step. */
  lemma FirstBootstrap(env: Env, st: Store, manifest: Config, freshSecret: string, salt: nat)
    requires freshSecret != "" && Apply(env, st, Boot(manifest, freshSecret), salt).ok
    ensures Settled(env, Apply(env, st, Boot(manifest, freshSecret), salt).store)
  {
    var cur := Current(env, st.row).value;
    CurrentNormal(env, st.row);
    BootEditSound(env, cur, manifest, freshSecret, salt);
    var edited := BootEdit(env, cur, manifest, freshSecret, salt);
    if edited.Write? {
      UpdateFace(env, edited.config, salt);
    }
  }

  /** What Bootstrap leaves, as the next read sees it. */
  function Booted(env: Env, st: Store, manifest: Config, freshSecret: string, salt: nat): Option<Config> {
    Current(env, Apply(env, st, Boot(manifest, freshSecret), salt).store.row)
  }

  /** A hash bcrypt made of a password, and protection switched on. */
  predicate Protects(env: Env, cfg: Config, password: string, salt: nat) {
    env.bcrypt.hash(password, salt) == Hash(cfg.catalogPasswordHash) && cfg.catalogPasswordRequired
  }

  /** What a store without a row reads as; reading it creates the row. */
  lemma DefaultsExactly(env: Env)
    ensures Current(env, None) == Some(Config("", "", false, "", 0, "", "", "", "", "", false, false, 168, "", "", []))
    ensures Current(env, None) == Some(Normalized(DefaultAppConfig()))
    ensures forall floor :: AfterRead(env, Store(None, floor)) == Store(Some(DefaultAppConfig()), [])
  {
    NormalizeExactly(env, DefaultAppConfig());
    NothingNamed([]);
  }

  /** A configuration with its secret filled in and its plaintext moved into the hash. */
  ghost predicate Furnished(env: Env, from: Config, freshSecret: string, salt: nat, cfg: Config) {
    && cfg == from.(
         tokenSecret := if from.tokenSecret == "" then freshSecret else from.tokenSecret,
         tokenSecretGenerated := from.tokenSecret == "" || from.tokenSecretGenerated,
         catalogPasswordHash := cfg.catalogPasswordHash,
         catalogPasswordRequired := from.catalogPassword != "" || from.catalogPasswordRequired,
         catalogPassword := "")
    && (from.catalogPassword == "" ==> cfg.catalogPasswordHash == from.catalogPasswordHash)
    && (from.catalogPassword != "" ==> Protects(env, cfg, from.catalogPassword, salt))
  }

  lemma BootEditKeeps(env: Env, cur: Config, manifest: Config, freshSecret: string, salt: nat)
    requires freshSecret != "" && cur != Normalized(DefaultAppConfig())
    ensures match BootEdit(env, cur, manifest, freshSecret, salt)
            case Keep => cur.tokenSecret != "" && cur.catalogPassword == ""
            case Write(cfg) => Furnished(env, cur, freshSecret, salt, cfg)
              && !(cur.tokenSecret != "" && cur.catalogPassword == "")
            case Refuse => true
  {
  }

  lemma BootEditImports(env: Env, cur: Config, manifest: Config, freshSecret: string, salt: nat)
    requires freshSecret != "" && cur == Normalized(DefaultAppConfig())
    ensures match BootEdit(env, cur, manifest, freshSecret, salt)
            case Keep => false
            case Write(cfg) => Furnished(env, manifest.(databaseURL := ""), freshSecret, salt, cfg)
            case Refuse => true
  {
  }

  /** A normal configuration stays normal when furnished. */
  lemma FurnishedNormal(env: Env, from: Config, freshSecret: string, salt: nat, cfg: Config)
    requires Furnished(env, from, freshSecret, salt, cfg) && NormalizeAppConfig(env, cfg).Some?
    ensures NormalizeAppConfig(env, from).Some?
    ensures Furnished(env, NormalizeAppConfig(env, from).value, freshSecret, salt, NormalizeAppConfig(env, cfg).value)
  {
    NormalizeExactly(env, from);
    NormalizeExactly(env, cfg);
  }

  lemma StoredForm(env: Env, from: Config, freshSecret: string, salt: nat, cfg: Config)
    requires Furnished(env, from, freshSecret, salt, cfg)
    ensures Furnished(env, from.(databaseURL := "", catalogPasswordSet := false), freshSecret, salt,
                      cfg.(databaseURL := "", catalogPasswordSet := false))
  {
  }

  /** A Bootstrap that writes leaves what UpdateConfig makes of its edit. */
  lemma BootWrites(env: Env, st: Store, manifest: Config, freshSecret: string, salt: nat)
    requires freshSecret != "" && Apply(env, st, Boot(manifest, freshSecret), salt).ok
    ensures Current(env, st.row).Some?
    ensures var cur := Current(env, st.row).value;
            var edited, st' := BootEdit(env, cur, manifest, freshSecret, salt),
              Apply(env, st, Boot(manifest, freshSecret), salt).store;
            && !edited.Refuse?
            && (edited.Keep? ==> Current(env, st'.row) == Some(cur))
            && (edited.Write? ==>
                  && NormalizeAppConfig(env, edited.config).Some?
                  && Current(env, st'.row)
                     == Some(NormalizeAppConfig(env, edited.config).value.(databaseURL := "",
                                                                           catalogPasswordSet := false))
                  && st'.floor == CleanIDs(edited.config.publicLibraryIDs))
  {
    var cur := Current(env, st.row).value;
    var edited := BootEdit(env, cur, manifest, freshSecret, salt);
    BootEditSound(env, cur, manifest, freshSecret, salt);
    if edited.Write? {
      UpdateReadsBack(env, edited.config, salt);
      NormalKeepsPassword(env, edited.config);
      NormalizeIdempotent(env, edited.config);
    }
  }

  /** Over a row that is not at the defaults a Bootstrap that succeeds keeps every field, except that it fills in a
      missing secret and moves a legacy plaintext into a hash, with protection on. */
  lemma BootstrapKeeps(env: Env, st: Store, manifest: Config, freshSecret: string, salt: nat)
    requires freshSecret != "" && Apply(env, st, Boot(manifest, freshSecret), salt).ok
    requires Current(env, st.row) != Current(env, None)
    ensures var was, now := Current(env, st.row), Booted(env, st, manifest, freshSecret, salt);
            && was.Some? && now.Some?
            && (if was.value.tokenSecret != "" && was.value.catalogPassword == "" then now == was
                else Furnished(env, was.value.(catalogPasswordSet := false), freshSecret, salt, now.value))
  {
    var cur := Current(env, st.row).value;
    DefaultsExactly(env);
    BootWrites(env, st, manifest, freshSecret, salt);
    BootEditKeeps(env, cur, manifest, freshSecret, salt);
    var edited := BootEdit(env, cur, manifest, freshSecret, salt);
    if edited.Write? {
      FurnishedNormal(env, cur, freshSecret, salt, edited.config);
      CurrentNormal(env, st.row);
      StoredForm(env, cur, freshSecret, salt, NormalizeAppConfig(env, edited.config).value);
    }
  }

  /** Over the defaults, or no row at all, it imports the manifest: normalised, without its database URL, its allowlist
      as the floor, its password as a hash with protection on, its secret or else a fresh one. */
  lemma BootstrapImports(env: Env, st: Store, manifest: Config, freshSecret: string, salt: nat)
    requires freshSecret != "" && Apply(env, st, Boot(manifest, freshSecret), salt).ok
    requires Current(env, st.row) == Current(env, None)
    ensures var read, now := NormalizeAppConfig(env, manifest), Booted(env, st, manifest, freshSecret, salt);
            && read.Some? && now.Some?
            && Furnished(env, read.value.(databaseURL := "", catalogPasswordSet := false), freshSecret, salt, now.value)
    ensures Apply(env, st, Boot(manifest, freshSecret), salt).store.floor == CleanIDs(manifest.publicLibraryIDs)
  {
    var cur := Current(env, st.row).value;
    DefaultsExactly(env);
    BootWrites(env, st, manifest, freshSecret, salt);
    BootEditImports(env, cur, manifest, freshSecret, salt);
    var cfg, seed := BootEdit(env, cur, manifest, freshSecret, salt).config, manifest.(databaseURL := "");
    FurnishedNormal(env, seed, freshSecret, salt, cfg);
    NormalizeExactly(env, manifest);
    NormalizeExactly(env, seed);
    StoredForm(env, NormalizeAppConfig(env, seed).value, freshSecret, salt, NormalizeAppConfig(env, cfg).value);
  }

  lemma BootOk(env: Env, st: Store, manifest: Config, freshSecret: string, salt: nat)
    requires Current(env, st.row).Some?
    ensures var edited := BootEdit(env, Current(env, st.row).value, manifest, freshSecret, salt);
            Apply(env, st, Boot(manifest, freshSecret), salt).ok <==>
              && !edited.Refuse?
              && (edited.Write? ==> Updated(env, edited.config, salt).Some?
                                    && Current(env, Updated(env, edited.config, salt)).Some?)
  {
  }

  /** A Bootstrap succeeds exactly when the row can be read, bcrypt takes the plaintext there is, and what is imported
      or kept normalises, a fresh secret being long enough where one is needed. */
  lemma BootstrapSucceedsExactly(env: Env, st: Store, manifest: Config, freshSecret: string, salt: nat)
    requires freshSecret != ""
    ensures var cur := Current(env, st.row);
            Apply(env, st, Boot(manifest, freshSecret), salt).ok <==>
              && cur.Some?
              && var from := if cur == Current(env, None) then manifest else cur.value;
                 && HashLeft(env, "", from.catalogPassword, salt).Some? && NormalizeAppConfig(env, from).Some?
                 && (from.tokenSecret == "" ==> ByteLen(freshSecret) >= 32)
  {
    var read := Current(env, st.row);
    DefaultsExactly(env);
    if read.Some? {
      var cur := read.value;
      var from := if read == Current(env, None) then manifest.(databaseURL := "") else cur;
      var edited := BootEdit(env, cur, manifest, freshSecret, salt);
      CurrentNormal(env, st.row);
      BootOk(env, st, manifest, freshSecret, salt);
      BootEditRefuses(env, cur, manifest, freshSecret, salt);
      NormalizeExactly(env, manifest);
      NormalizeExactly(env, from);
      if edited.Write? {
        BootEditFurnishes(env, cur, manifest, freshSecret, salt);
        WrittenReads(env, edited.config, salt);
        FurnishedAcceptable(env, from, freshSecret, salt, edited.config);
      } else if edited.Keep? {
        BootEditFurnishes(env, cur, manifest, freshSecret, salt);
      }
    }
  }

  lemma BootEditRefuses(env: Env, cur: Config, manifest: Config, freshSecret: string, salt: nat)
    ensures var from := if cur == Normalized(DefaultAppConfig()) then manifest else cur;
            BootEdit(env, cur, manifest, freshSecret, salt).Refuse?
            <==> HashLeft(env, "", from.catalogPassword, salt).None?
  {
  }

  lemma BootEditFurnishes(env: Env, cur: Config, manifest: Config, freshSecret: string, salt: nat)
    requires freshSecret != ""
    ensures var from := if cur == Normalized(DefaultAppConfig()) then manifest.(databaseURL := "") else cur;
            match BootEdit(env, cur, manifest, freshSecret, salt)
            case Keep => from == cur && cur.tokenSecret != ""
            case Write(cfg) => Furnished(env, from, freshSecret, salt, cfg)
            case Refuse => true
  {
    if cur == Normalized(DefaultAppConfig()) {
      BootEditImports(env, cur, manifest, freshSecret, salt);
    } else {
      BootEditKeeps(env, cur, manifest, freshSecret, salt);
    }
  }

  lemma WrittenReads(env: Env, cfg: Config, salt: nat)
    requires cfg.catalogPassword == ""
    ensures Updated(env, cfg, salt).Some? <==> NormalizeAppConfig(env, cfg).Some?
    ensures Updated(env, cfg, salt).Some? ==> Current(env, Updated(env, cfg, salt)).Some?
  {
    if Updated(env, cfg, salt).Some? {
      UpdateReadsBack(env, cfg, salt);
    }
    if NormalizeAppConfig(env, cfg).Some? {
      NormalKeepsPassword(env, cfg);
    }
  }

  lemma FurnishedAcceptable(env: Env, from: Config, freshSecret: string, salt: nat, cfg: Config)
    requires Furnished(env, from, freshSecret, salt, cfg) && freshSecret != ""
    ensures NormalizeAppConfig(env, cfg).Some?
            <==> NormalizeAppConfig(env, from).Some? && (from.tokenSecret == "" ==> ByteLen(freshSecret) >= 32)
  {
    NormalizeExactly(env, from);
    NormalizeExactly(env, cfg);
  }

  /** Every later Bootstrap succeeds and changes nothing, whatever the manifest says. */
  lemma LaterBootstraps(env: Env, st: Store, manifest: Config, freshSecret: string, salt: nat)
    requires Settled(env, st)
    ensures Apply(env, st, Boot(manifest, freshSecret), salt) == Applied(st, true)
  {
    BootKeeps(env, Current(env, st.row).value, manifest, freshSecret, salt);
  }

  // ----- operations one at a time -----

  datatype Call = Call(op: Op, salt: nat)

  function Ops(calls: seq<Call>): set<Op> { set c | c in calls :: c.op }

  type StepFunction = (Store, Op, nat) -> Applied

  function Stepper(env: Env): StepFunction {
    (st: Store, op: Op, salt: nat) => Apply(env, st, op, salt)
  }

  function Run(step: StepFunction, st: Store, calls: seq<Call>): Store
    decreases |calls|
  {
    if calls == [] then st else Run(step, step(st, calls[0].op, calls[0].salt).store, calls[1..])
  }

  /** A step function that keeps stores good and lets their faces follow. */
  ghost predicate Keeps(step: StepFunction, hash: HashFunction, good: Store -> bool, face: Store -> Face) {
    forall st: Store, op: Op, salt: nat :: good(st) ==>
      good(step(st, op, salt).store) && Follows(hash, op, face(st), salt, face(step(st, op, salt).store))
  }

  lemma {:induction false} RunKeeps(step: StepFunction, hash: HashFunction, good: Store -> bool, face: Store -> Face,
                                    first: Face, ops: set<Op>, st: Store, calls: seq<Call>)
    requires Keeps(step, hash, good, face) && good(st) && Known(hash, first, ops, face(st)) && Ops(calls) <= ops
    ensures good(Run(step, st, calls)) && Known(hash, first, ops, face(Run(step, st, calls)))
    decreases |calls|
  {
    if calls != [] {
      var op, salt := calls[0].op, calls[0].salt;
      var st' := step(st, op, salt).store;
      assert calls[0] in calls && forall c :: c in calls[1..] ==> c in calls;
      assert op in Ops(calls) && Ops(calls[1..]) <= Ops(calls);
      KnownThenStep(hash, first, ops, face(st), op, salt, face(st'));
      RunKeeps(step, hash, good, face, first, ops, st', calls[1..]);
    }
  }

  function Good(env: Env): Store -> bool { st => Settled(env, st) }

  function Facer(env: Env): Store -> Face {
    st => if Settled(env, st) then CurrentFace(env, st) else Face("", "", (0, ""), [])
  }

  /** Main result, second half.  After that, over every sequence of operations: the row stays sound, the floor in step,
      the listener as it was; the secret is the first one or one a PATCH supplied; the hash is the first one, empty, or
      the hash of a submitted password. */
  lemma SerialRuns(env: Env, st: Store, calls: seq<Call>)
    requires Settled(env, st)
    ensures Settled(env, Run(Stepper(env), st, calls))
    ensures Known(Hasher(env), CurrentFace(env, st), Ops(calls), CurrentFace(env, Run(Stepper(env), st, calls)))
  {
    var step, hash, good, face := Stepper(env), Hasher(env), Good(env), Facer(env);
    forall st: Store, op: Op, salt: nat | good(st)
      ensures good(step(st, op, salt).store) && Follows(hash, op, face(st), salt, face(step(st, op, salt).store))
    {
      StepKeeps(env, st, op, salt);
    }
    RunKeeps(step, hash, good, face, face(st), Ops(calls), st, calls);
  }

  /** The secret changes only in a step whose PATCH supplies another. */
  lemma SecretChangesOnlyByPatch(env: Env, st: Store, op: Op, salt: nat)
    requires Settled(env, st)
    ensures var st' := Apply(env, st, op, salt).store;
            && Settled(env, st')
            && (CurrentFace(env, st').secret != CurrentFace(env, st).secret ==>
                  op.Patch? && op.request.tokenSecret != "" && CurrentFace(env, st').secret == op.request.tokenSecret)
  {
    StepKeeps(env, st, op, salt);
  }

  /** No plaintext is stored, and a login never takes the legacy path. */
  lemma NoLegacyLogin(env: Env, st: Store, supplied: string)
    requires Settled(env, st)
    ensures st.row.value.catalogPassword == ""
    ensures var c := Current(env, st.row).value;
            VerifyCatalogPassword(env.bcrypt, c.catalogPasswordHash, c.catalogPassword, supplied) != OkRehash
  {
    CurrentNormal(env, st.row);
  }

  /** A PATCH that is accepted takes effect: its allowlist is the floor, its secret is stored, and its password logs
      in. */
  lemma PatchTakesEffect(env: Env, st: Store, request: Config, salt: nat)
    requires Settled(env, st) && Lawful(env.bcrypt) && Apply(env, st, Patch(request), salt).ok
    ensures var st' := Apply(env, st, Patch(request), salt).store;
            && Settled(env, st') && st'.floor == CleanIDs(request.publicLibraryIDs)
            && (request.tokenSecret != "" ==> st'.row.value.tokenSecret == request.tokenSecret)
            && (request.catalogPassword != "" ==>
                  VerifyCatalogPassword(env.bcrypt, st'.row.value.catalogPasswordHash, "", request.catalogPassword)
                    == Ok)
  {
    var cur := Current(env, st.row).value;
    PatchEffect(env, request, cur, salt);
    PatchNext(env, cur, request);
    UpdateFace(env, PatchEdit(env, cur, request).config, salt);
    if request.catalogPassword != "" {
      HashVerifies(env.bcrypt, request.catalogPassword, salt, "");
    }
  }

  /** The hash an edit leaves: the old one when it submits no password, else the one bcrypt makes of it. */
  function HashLeft(env: Env, before: string, password: string, salt: nat): Option<string> {
    if password == "" then Some(before)
    else
      match env.bcrypt.hash(password, salt)
      case Hash(h) => Some(h)
      case Refused => None
  }

  /** A request with the secret it leaves out. */
  function WithSecret(cur: Config, request: Config): Config {
    request.(tokenSecret := if request.tokenSecret == "" then cur.tokenSecret else request.tokenSecret)
  }

  /** Normalising does not look at the hash. */
  lemma HashAside(env: Env, cfg: Config, hash: string)
    ensures NormalizeAppConfig(env, cfg.(catalogPasswordHash := hash))
            == match NormalizeAppConfig(env, cfg)
               case None => None
               case Some(n) => Some(n.(catalogPasswordHash := hash))
  {
    var other := cfg.(catalogPasswordHash := hash);
    assert WithListen(other) == WithListen(cfg).(catalogPasswordHash := hash);
    assert Acceptable(env, other) <==> Acceptable(env, cfg);
  }

  lemma CompletedRead(env: Env, cur: Config, request: Config)
    ensures var full, read := NormalizeAppConfig(env, Completed(cur, request)),
                NormalizeAppConfig(env, WithSecret(cur, request));
            && (full.Some? <==> read.Some?)
            && (full.Some? ==> full.value == read.value.(
                  catalogPasswordHash := if request.catalogPassword == "" then cur.catalogPasswordHash
                                         else request.catalogPasswordHash))
  {
    var hash := if request.catalogPassword == "" then cur.catalogPasswordHash else request.catalogPasswordHash;
    assert Completed(cur, request) == WithSecret(cur, request).(catalogPasswordHash := hash);
    HashAside(env, WithSecret(cur, request), hash);
  }

  lemma PatchRow(env: Env, st: Store, request: Config, salt: nat)
    requires Settled(env, st) && Apply(env, st, Patch(request), salt).ok
    ensures var cur := Current(env, st.row).value;
            var full, hash := NormalizeAppConfig(env, Completed(cur, request)),
                              HashLeft(env, cur.catalogPasswordHash, request.catalogPassword, salt);
            && full.Some? && hash.Some?
            && Apply(env, st, Patch(request), salt).store.row
               == Some(full.value.(databaseURL := "", catalogPasswordSet := false,
                                   catalogPassword := "", catalogPasswordHash := hash.value))
  {
    var cur := Current(env, st.row).value;
    PatchEffect(env, request, cur, salt);
    PatchNext(env, cur, request);
    NormalizeIdempotent(env, Completed(cur, request));
    UpdateReadsBack(env, PatchEdit(env, cur, request).config, salt);
  }

  /** Everything else is replaced as well: the stored row is the normalised request, completed with the secret and the
      hash it leaves out, without what is never stored. */
  lemma PatchReplaces(env: Env, st: Store, request: Config, salt: nat)
    requires Settled(env, st) && Apply(env, st, Patch(request), salt).ok
    ensures var cur := Current(env, st.row).value;
            var read, hash := NormalizeAppConfig(env, WithSecret(cur, request)),
                              HashLeft(env, cur.catalogPasswordHash, request.catalogPassword, salt);
            && read.Some? && hash.Some?
            && Apply(env, st, Patch(request), salt).store.row
               == Some(read.value.(databaseURL := "", catalogPasswordSet := false,
                                   catalogPassword := "", catalogPasswordHash := hash.value))
  {
    PatchRow(env, st, request, salt);
    CompletedRead(env, Current(env, st.row).value, request);
  }

  /** A PATCH is accepted exactly when the request normalises, keeps the listener, and bcrypt takes its password; a
      refused one changes nothing. */
  lemma PatchAcceptedExactly(env: Env, st: Store, request: Config, salt: nat)
    requires Settled(env, st)
    ensures var cur, applied := Current(env, st.row).value, Apply(env, st, Patch(request), salt);
            var read := NormalizeAppConfig(env, WithSecret(cur, request));
            && (applied.ok <==>
                  && read.Some? && HashLeft(env, "", request.catalogPassword, salt).Some?
                  && read.value.publicPort == cur.publicPort
                  && TrimSpace(read.value.standaloneHTTPListen) == TrimSpace(cur.standaloneHTTPListen))
            && (!applied.ok ==> applied.store == st)
  {
    var cur := Current(env, st.row).value;
    ReadKeeps(env, st);
    CompletedRead(env, cur, request);
    if PatchEdit(env, cur, request).Write? {
      PatchNext(env, cur, request);
      UpdatedExactly(env, PatchEdit(env, cur, request).config, salt);
    }
    PatchApplies(env, st, request, salt);
  }

  lemma PatchApplies(env: Env, st: Store, request: Config, salt: nat)
    requires Settled(env, st)
    ensures var cur, applied := Current(env, st.row).value, Apply(env, st, Patch(request), salt);
            var edited := PatchEdit(env, cur, request);
            && (applied.ok <==> edited.Write? && Updated(env, edited.config, salt).Some?
                                && Current(env, Updated(env, edited.config, salt)).Some?)
            && (!(edited.Write? && Updated(env, edited.config, salt).Some?) ==> applied.store == st)
  {
    ReadKeeps(env, st);
  }

  lemma UpdatedExactly(env: Env, cfg: Config, salt: nat)
    requires Normal(env, cfg) && cfg.tokenSecret != ""
    ensures Updated(env, cfg, salt).Some? <==> HashLeft(env, "", cfg.catalogPassword, salt).Some?
    ensures Updated(env, cfg, salt).Some? ==> Current(env, Updated(env, cfg, salt)).Some?
  {
    if Updated(env, cfg, salt).Some? {
      UpdateFace(env, cfg, salt);
    }
  }

  lemma SmallApplies(env: Env, st: Store, op: Op, salt: nat)
    requires Settled(env, st) && (op.SaveHTML? || op.Clear? || op.Rehash?) && !TooLarge(op)
    requires Edit(env, op, Current(env, st.row).value, salt).Write?
    ensures Apply(env, st, op, salt)
            == Applied(Store(Some(Edit(env, op, Current(env, st.row).value, salt).config.(catalogPasswordSet := false)),
                             st.floor),
                       true)
  {
    ReadKeeps(env, st);
    CurrentNormal(env, st.row);
    SmallEdit(env, op, Current(env, st.row).value, salt);
  }

  /** The HTML save stores the sanitised text, unless it has more than 200000 bytes, and changes nothing else. */
  lemma SaveExactly(env: Env, st: Store, html: string, salt: nat)
    requires Settled(env, st)
    ensures var cur, applied := Current(env, st.row).value, Apply(env, st, SaveHTML(html), salt);
            && (applied.ok <==> ByteLen(html) <= 200_000)
            && (!applied.ok ==> applied.store == st)
            && (applied.ok ==>
                  applied.store == Store(Some(cur.(publishedHTML := env.sanitize(html), catalogPasswordSet := false)),
                                         st.floor))
  {
    if ByteLen(html) <= 200_000 {
      SmallApplies(env, st, SaveHTML(html), salt);
    }
  }

  /** The rehash stores the hash of the password it is given, unless bcrypt refuses it, and changes nothing else. */
  lemma RehashExactly(env: Env, st: Store, plaintext: string, salt: nat)
    requires Settled(env, st)
    ensures var cur, applied := Current(env, st.row).value, Apply(env, st, Rehash(plaintext), salt);
            var hash := HashLeft(env, "", plaintext, salt);
            && (applied.ok <==> hash.Some?)
            && (!applied.ok ==> applied.store == st)
            && (applied.ok ==>
                  applied.store == Store(Some(cur.(catalogPasswordHash := hash.value, catalogPasswordSet := false)),
                                         st.floor))
  {
    CurrentNormal(env, st.row);
    if HashLeft(env, "", plaintext, salt).Some? {
      SmallApplies(env, st, Rehash(plaintext), salt);
    } else {
      ReadKeeps(env, st);
    }
  }

  /** Clearing always succeeds, and after it no password is required and none is accepted. */
  lemma ClearTakesEffect(env: Env, st: Store, salt: nat, supplied: string)
    requires Settled(env, st)
    ensures var r := Apply(env, st, Clear, salt);
            && r.ok && Settled(env, r.store) && !r.store.row.value.catalogPasswordRequired
            && r.store == Store(Some(Current(env, st.row).value.(catalogPasswordHash := "",
                                                                 catalogPasswordRequired := false,
                                                                 catalogPasswordSet := false)), st.floor)
            && VerifyCatalogPassword(env.bcrypt, r.store.row.value.catalogPasswordHash,
                                     r.store.row.value.catalogPassword,
                                     supplied) == Fail
  {
    var cur := Current(env, st.row).value;
    SmallApplies(env, st, Clear, salt);
    CurrentNormal(env, st.row);
    SmallEdit(env, Clear, cur, salt);
    EffectsFollow(env, Clear, cur, salt);
  }
}
