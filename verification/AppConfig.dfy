/** The persisted plugin configuration: internal/runtime/runtime.go (normalising), internal/store/config.go (one stored
    row) and the admin handlers of internal/server/handlers_admin_api.go that rewrite it. */
module AppConfig {
  import opened Text
  import opened LibraryScope
  import opened Password

  datatype Config = Config(
    databaseURL: string, tokenSecret: string, tokenSecretGenerated: bool,
    standaloneHTTPListen: string, publicPort: int, publicBaseURL: string,
    adHTML: string, publishedHTML: string,
    catalogPassword: string, catalogPasswordHash: string, catalogPasswordSet: bool, catalogPasswordRequired: bool,
    tokenTTLHours: int, ebookInstallationID: string, audioInstallationID: string,
    publicLibraryIDs: seq<string>)

  /** Foreign calls: URL and listen-address syntax, the HTML sanitiser, bcrypt. */
  datatype Env = Env(absoluteURL: string -> bool, listenable: string -> bool, sanitize: string -> string,
                     bcrypt: Bcrypt)

  const MAX_HTML := 200_000
  const DEFAULT_TTL_HOURS := 168
  const MIN_SECRET := 32

  function DefaultAppConfig(): Config {
    Config("", "", false, "", 0, "", "", "", "", "", false, false, DEFAULT_TTL_HOURS, "", "", [])
  }

  // ----- normalising -----

  predicate ValidListenAddr(env: Env, addr: string) {
    TrimSpace(addr) != "" && env.listenable(TrimSpace(addr))
  }

  function WithListen(cfg: Config): Config {
    if cfg.publicPort > 0 && cfg.standaloneHTTPListen == "" then
      cfg.(standaloneHTTPListen := ":" + Itoa(cfg.publicPort))
    else cfg
  }

  predicate LongEnough(secret: string) {
    secret != "" ==> ByteLen(secret) >= MIN_SECRET
  }

  predicate Acceptable(env: Env, cfg: Config) {
    && LongEnough(cfg.tokenSecret)
    && (cfg.publicBaseURL != "" ==> env.absoluteURL(cfg.publicBaseURL))
    && 0 <= cfg.publicPort <= 65535
    && (WithListen(cfg).standaloneHTTPListen != "" ==> ValidListenAddr(env, WithListen(cfg).standaloneHTTPListen))
  }

  function Normalized(cfg: Config): Config {
    WithListen(cfg).(
      tokenTTLHours := if cfg.tokenTTLHours < 1 then DEFAULT_TTL_HOURS else cfg.tokenTTLHours,
      publicLibraryIDs := NormalizeLibraryIDs(cfg.publicLibraryIDs))
  }

  function NormalizeAppConfig(env: Env, cfg: Config): Option<Config> {
    if Acceptable(env, cfg) then Some(Normalized(cfg)) else None
  }

  method ComputeNormalizeAppConfig(env: Env, config: Config) returns (r: Option<Config>)
    ensures r == NormalizeAppConfig(env, config)
  {
    var cfg := config;
    if cfg.tokenSecret != "" && ByteLen(cfg.tokenSecret) < MIN_SECRET {
      return None;
    }
    if cfg.publicBaseURL != "" && !env.absoluteURL(cfg.publicBaseURL) {
      return None;
    }
    if cfg.publicPort < 0 || cfg.publicPort > 65535 {
      return None;
    }
    if cfg.publicPort > 0 && cfg.standaloneHTTPListen == "" {
      cfg := cfg.(standaloneHTTPListen := ":" + Itoa(cfg.publicPort));
    }
    if cfg.standaloneHTTPListen != "" && !ValidListenAddr(env, cfg.standaloneHTTPListen) {
      return None;
    }
    if cfg.tokenTTLHours < 1 {
      cfg := cfg.(tokenTTLHours := 168);
    }
    var ids := ComputeNormalizeLibraryIDs(cfg.publicLibraryIDs);
    cfg := cfg.(publicLibraryIDs := ids);
    return Some(cfg);
  }

  /** What normalising accepts, and what it derives: a listener from the port when none is named, the default lifetime
      for one below an hour, the canonical ids.  Every other field stays as it is. */
  lemma NormalizeExactly(env: Env, cfg: Config)
    ensures NormalizeAppConfig(env, cfg).None? <==>
              || (cfg.tokenSecret != "" && ByteLen(cfg.tokenSecret) < 32)
              || (cfg.publicBaseURL != "" && !env.absoluteURL(cfg.publicBaseURL))
              || cfg.publicPort < 0 || cfg.publicPort > 65535
              || (cfg.standaloneHTTPListen == "" && cfg.publicPort > 0
                  && !env.listenable(":" + Itoa(cfg.publicPort)))
              || (cfg.standaloneHTTPListen != ""
                  && (TrimSpace(cfg.standaloneHTTPListen) == ""
                      || !env.listenable(TrimSpace(cfg.standaloneHTTPListen))))
    ensures NormalizeAppConfig(env, cfg).Some? ==>
              NormalizeAppConfig(env, cfg).value == cfg.(
                standaloneHTTPListen := if cfg.standaloneHTTPListen == "" && cfg.publicPort > 0
                                        then ":" + Itoa(cfg.publicPort) else cfg.standaloneHTTPListen,
                tokenTTLHours := if cfg.tokenTTLHours < 1 then 168 else cfg.tokenTTLHours,
                publicLibraryIDs := Texts(CleanIDs(cfg.publicLibraryIDs)))
  {
    NormalizeAgrees(cfg.publicLibraryIDs);
    PortText(cfg.publicPort);
  }

  lemma PortText(port: int)
    ensures Trimmed(":" + Itoa(port)) && TrimSpace(":" + Itoa(port)) == ":" + Itoa(port)
  {
    var digits := NatText(if port < 0 then -port else port);
    assert digits[|digits| - 1] in digits;
    assert (":" + Itoa(port))[|Itoa(port)|] == digits[|digits| - 1];
    TrimmedUnchanged(":" + Itoa(port));
  }

  /** Agreement on every field that normalising reads or changes. */
  predicate SameForm(a: Config, b: Config) {
    && a.tokenSecret == b.tokenSecret && a.standaloneHTTPListen == b.standaloneHTTPListen
    && a.publicPort == b.publicPort
    && a.publicBaseURL == b.publicBaseURL && a.tokenTTLHours == b.tokenTTLHours
    && a.publicLibraryIDs == b.publicLibraryIDs
  }

  /** A configuration normalising leaves as it is. */
  predicate Normal(env: Env, cfg: Config) {
    NormalizeAppConfig(env, cfg) == Some(cfg)
  }

  lemma NormalForm(env: Env, a: Config, b: Config)
    requires Normal(env, a) && SameForm(a, b)
    ensures Normal(env, b)
  {
    assert Acceptable(env, a) && Normalized(a) == a;
    assert WithListen(a) == a && WithListen(b) == b;
    assert b.publicLibraryIDs == Normalized(a).publicLibraryIDs;
    assert b.tokenTTLHours == Normalized(a).tokenTTLHours;
  }

  lemma ListenFixed(cfg: Config)
    ensures WithListen(WithListen(cfg)) == WithListen(cfg)
  {
  }

  /** Normalising again changes nothing. */
  lemma NormalizeIdempotent(env: Env, cfg: Config)
    requires NormalizeAppConfig(env, cfg).Some?
    ensures Normal(env, NormalizeAppConfig(env, cfg).value)
    ensures CleanIDs(NormalizeAppConfig(env, cfg).value.publicLibraryIDs) == CleanIDs(cfg.publicLibraryIDs)
  {
    NormalizeAgrees(cfg.publicLibraryIDs);
    ListenFixed(cfg);
    var n := Normalized(cfg);
    assert n.publicLibraryIDs == NormalizeLibraryIDs(cfg.publicLibraryIDs);
    assert WithListen(n) == n;
    assert Acceptable(env, n);
  }

  // ----- the stored row -----

  /** The row, None before the first read inserts the empty document, and the allowlist in memory. */
  datatype Store = Store(row: Option<Config>, floor: seq<int>)

  /** What the JSON document decodes to over the defaults; the database URL is not part of it. */
  function Decoded(row: Option<Config>): Config {
    match row
    case None => DefaultAppConfig()
    case Some(c) => c.(databaseURL := "")
  }

  /** What GetConfig returns. */
  function Current(env: Env, row: Option<Config>): Option<Config> {
    NormalizeAppConfig(env, Decoded(row))
  }

  /** The row UpdateConfig writes: normalised, without what is never stored, the plaintext hashed. */
  function Updated(env: Env, cfg: Config, salt: nat): Option<Config> {
    match NormalizeAppConfig(env, cfg)
    case None => None
    case Some(n) =>
      var bare := n.(databaseURL := "", catalogPasswordSet := false);
      if n.catalogPassword == "" then Some(bare)
      else
        match HashCatalogPassword(env.bcrypt, n.catalogPassword, salt)
        case Refused => None
        case Hash(h) => Some(bare.(catalogPasswordHash := h, catalogPassword := ""))
  }

  /** Reading back what was written gives the normalised configuration with the plaintext replaced by its hash; so
      every written row normalises, to itself. */
  lemma UpdateReadsBack(env: Env, cfg: Config, salt: nat)
    requires Updated(env, cfg, salt).Some?
    ensures var n, r := NormalizeAppConfig(env, cfg).value, Updated(env, cfg, salt).value;
            && Normal(env, r) && Current(env, Some(r)) == Some(r)
            && r.catalogPassword == "" && r.databaseURL == "" && !r.catalogPasswordSet
            && r == n.(databaseURL := "", catalogPasswordSet := false, catalogPassword := "",
                       catalogPasswordHash := r.catalogPasswordHash)
            && HashCatalogPassword(env.bcrypt, cfg.catalogPassword, salt).Hash?
            && r.catalogPasswordHash == (if cfg.catalogPassword == "" then cfg.catalogPasswordHash
                                         else HashCatalogPassword(env.bcrypt, cfg.catalogPassword, salt).text)
  {
    NormalizeIdempotent(env, cfg);
    var n, r := NormalizeAppConfig(env, cfg).value, Updated(env, cfg, salt).value;
    NormalKeepsPassword(env, cfg);
    NormalForm(env, n, r);
  }

  lemma NormalKeepsPassword(env: Env, cfg: Config)
    requires NormalizeAppConfig(env, cfg).Some?
    ensures var n := NormalizeAppConfig(env, cfg).value;
            && n.catalogPassword == cfg.catalogPassword && n.catalogPasswordHash == cfg.catalogPasswordHash
            && n.tokenSecret == cfg.tokenSecret && n.publicPort == cfg.publicPort && n.databaseURL == cfg.databaseURL
  {
  }

  // ----- the operations -----

  datatype Op =
    | Boot(manifest: Config, freshSecret: string)
    | Patch(request: Config)
    | SaveHTML(html: string)
    | Clear
    | Rehash(plaintext: string)

  /** What an operation makes of the configuration it read. */
  datatype Edited = Write(config: Config) | Keep | Refuse

  predicate LiveListenerChange(cur: Config, next: Config) {
    TrimSpace(cur.standaloneHTTPListen) != TrimSpace(next.standaloneHTTPListen) || cur.publicPort != next.publicPort
  }

  /** A request completed with the secret and the hash it leaves out. */
  function Completed(cur: Config, request: Config): Config {
    var r := if request.tokenSecret == "" then request.(tokenSecret := cur.tokenSecret) else request;
    if r.catalogPassword == "" then r.(catalogPasswordHash := cur.catalogPasswordHash) else r
  }

  function PatchEdit(env: Env, cur: Config, request: Config): Edited {
    match NormalizeAppConfig(env, Completed(cur, request))
    case None => Refuse
    case Some(next) => if LiveListenerChange(cur, next) then Refuse else Write(next)
  }

  /** A configuration with its plaintext password, if any, moved into the hash. */
  function HashPlaintext(env: Env, cfg: Config, salt: nat): Option<Config> {
    if cfg.catalogPassword == "" then Some(cfg)
    else
      match HashCatalogPassword(env.bcrypt, cfg.catalogPassword, salt)
      case Refused => None
      case Hash(h) => Some(cfg.(catalogPasswordHash := h, catalogPasswordRequired := true, catalogPassword := ""))
  }

  /** What Bootstrap has in hand before writing: the manifest while the row still holds the defaults, a fresh secret
      where there is none, a legacy plaintext hashed. */
  function BootEdit(env: Env, cur: Config, manifest: Config, freshSecret: string, salt: nat): Edited {
    match (if cur == Normalized(DefaultAppConfig()) then HashPlaintext(env, manifest.(databaseURL := ""), salt)
           else Some(cur))
    case None => Refuse
    case Some(seeded) =>
      var keyed := if seeded.tokenSecret == "" then seeded.(tokenSecret := freshSecret, tokenSecretGenerated := true)
        else seeded;
      match HashPlaintext(env, keyed, salt)
      case None => Refuse
      case Some(hashed) =>
        if seeded != cur || seeded.tokenSecret == "" || keyed.catalogPassword != "" then Write(hashed) else Keep
  }

  function Edit(env: Env, op: Op, cur: Config, salt: nat): Edited {
    match op
    case Boot(manifest, freshSecret) => BootEdit(env, cur, manifest, freshSecret, salt)
    case Patch(request) => PatchEdit(env, cur, request)
    case SaveHTML(html) => if ByteLen(html) > MAX_HTML then Refuse else Write(cur.(publishedHTML := env.sanitize(html)))
    case Clear => Write(cur.(catalogPasswordHash := "", catalogPassword := "", catalogPasswordRequired := false))
    case Rehash(plaintext) =>
      match HashCatalogPassword(env.bcrypt, plaintext, salt)
      case Refused => Refuse
      case Hash(h) => Write(cur.(catalogPasswordHash := h, catalogPassword := ""))
  }

  /** The whole effect on the row of an operation that read `cur`. */
  datatype Effect = Refused | Unchanged | Rewritten(row: Config)

  function EffectOf(env: Env, op: Op, cur: Config, salt: nat): Effect {
    EffectOfEdit(env, Edit(env, op, cur, salt), salt)
  }

  function EffectOfEdit(env: Env, edited: Edited, salt: nat): Effect {
    match edited
    case Refuse => Effect.Refused
    case Keep => Unchanged
    case Write(cfg) =>
      match Updated(env, cfg, salt)
      case None => Effect.Refused
      case Some(row) => Rewritten(row)
  }

  predicate ReadsBack(op: Op) { op.Boot? || op.Patch? }

  /** The one refusal that comes before the configuration is read. */
  predicate TooLarge(op: Op) { op.SaveHTML? && ByteLen(op.html) > MAX_HTML }

  /** GetConfig creates a missing row and reloads the floor. */
  function AfterRead(env: Env, st: Store): Store {
    var row := if st.row.None? then Some(DefaultAppConfig()) else st.row;
    match Current(env, st.row)
    case None => Store(row, st.floor)
    case Some(cur) => Store(row, CleanIDs(cur.publicLibraryIDs))
  }

  datatype Applied = Applied(store: Store, ok: bool)

  /** The rest of an operation that has read: write, and for Bootstrap and PATCH read again. */
  function AfterEffect(env: Env, read: Store, op: Op, effect: Effect): Applied {
    match effect
    case Refused => Applied(read, false)
    case Unchanged => Applied(read, true)
    case Rewritten(row) =>
      var written := read.(row := Some(row));
      if ReadsBack(op) then Applied(AfterRead(env, written), Current(env, Some(row)).Some?) else Applied(written, true)
  }

  /** One whole operation. */
  function Apply(env: Env, st: Store, op: Op, salt: nat): Applied {
    if TooLarge(op) then Applied(st, false)
    else
      match Current(env, st.row)
      case None => Applied(AfterRead(env, st), false)
      case Some(cur) => AfterEffect(env, AfterRead(env, st), op, EffectOf(env, op, cur, salt))
  }

  // ----- the store class and the handlers -----

  /** The edit of hUpdateConfig. */
  method ComputePatchEdit(env: Env, cur: Config, request: Config) returns (edited: Edited)
    ensures edited == PatchEdit(env, cur, request)
  {
    var req := request;
    if req.tokenSecret == "" {
      req := req.(tokenSecret := cur.tokenSecret);
    }
    if req.catalogPassword == "" {
      req := req.(catalogPasswordHash := cur.catalogPasswordHash);
    }
    var next := ComputeNormalizeAppConfig(env, req);
    if next.None? || LiveListenerChange(cur, next.value) {
      return Refuse;
    }
    return Write(next.value);
  }

  /** The edit of Bootstrap with its dirty flag. */
  method ComputeBootEdit(env: Env, stored: Config, manifest: Config, freshSecret: string, salt: nat)
    returns (edited: Edited)
    ensures edited == BootEdit(env, stored, manifest, freshSecret, salt)
  {
    var cur, dirty := stored, false;
    if cur == Normalized(DefaultAppConfig()) {
      var seed := manifest.(databaseURL := "");
      if seed.catalogPassword != "" {
        var hash := HashCatalogPassword(env.bcrypt, seed.catalogPassword, salt);
        if hash.Refused? {
          return Refuse;
        }
        seed := seed.(catalogPasswordHash := hash.text, catalogPasswordRequired := true, catalogPassword := "");
      }
      if seed != cur {
        cur := seed;
        dirty := true;
      }
    }
    if cur.tokenSecret == "" {
      cur := cur.(tokenSecret := freshSecret, tokenSecretGenerated := true);
      dirty := true;
    }
    if cur.catalogPassword != "" {
      var hash := HashCatalogPassword(env.bcrypt, cur.catalogPassword, salt);
      if hash.Refused? {
        return Refuse;
      }
      cur := cur.(catalogPasswordHash := hash.text, catalogPasswordRequired := true, catalogPassword := "");
      dirty := true;
    }
    return if dirty then Write(cur) else Keep;
  }

  class ConfigStore {
    const env: Env
    const publicFloor: PublicFloor
    var row: Option<Config>

    constructor (env: Env, row: Option<Config>)
      ensures this.env == env && View() == Store(row, []) && fresh(publicFloor)
    {
      this.env, this.row := env, row;
      publicFloor := new PublicFloor();
    }

    ghost function View(): Store
      reads this, publicFloor
    {
      Store(row, publicFloor.publicLibraryIDs)
    }

    method GetConfig() returns (cfg: Option<Config>)
      modifies this, publicFloor
      ensures cfg == Current(env, old(row)) && View() == AfterRead(env, old(View()))
    {
      if row.None? {
        row := Some(DefaultAppConfig());
      }
      var decoded := row.value.(databaseURL := "");
      cfg := ComputeNormalizeAppConfig(env, decoded);
      if cfg.Some? {
        publicFloor.SetPublicLibraryIDs(cfg.value.publicLibraryIDs);
      }
    }

    method UpdateConfig(config: Config, salt: nat) returns (ok: bool)
      modifies this
      ensures ok <==> Updated(env, config, salt).Some?
      ensures row == if ok then Updated(env, config, salt) else old(row)
    {
      var normalized := ComputeNormalizeAppConfig(env, config);
      if normalized.None? {
        return false;
      }
      var cfg := normalized.value;
      cfg := cfg.(databaseURL := "");
      cfg := cfg.(catalogPasswordSet := false);
      if cfg.catalogPassword != "" {
        var hash := HashCatalogPassword(env.bcrypt, cfg.catalogPassword, salt);
        if hash.Refused? {
          return false;
        }
        cfg := cfg.(catalogPasswordHash := hash.text);
        cfg := cfg.(catalogPassword := "");
      }
      row := Some(cfg);
      return true;
    }

    /** The common end of the operations: write the edit, and for Bootstrap and PATCH read again. */
    method Finish(op: Op, edited: Edited, salt: nat) returns (ok: bool)
      modifies this, publicFloor
      ensures Applied(View(), ok) == AfterEffect(env, old(View()), op, EffectOfEdit(env, edited, salt))
    {
      if !edited.Write? {
        return edited.Keep?;
      }
      ok := UpdateConfig(edited.config, salt);
      if ok && ReadsBack(op) {
        var got := GetConfig();
        ok := got.Some?;
      }
    }

    method Bootstrap(manifest: Config, freshSecret: string, salt: nat) returns (ok: bool)
      modifies this, publicFloor
      ensures Applied(View(), ok) == Apply(env, old(View()), Boot(manifest, freshSecret), salt)
    {
      var cur := GetConfig();
      if cur.None? {
        return false;
      }
      var edited := ComputeBootEdit(env, cur.value, manifest, freshSecret, salt);
      ok := Finish(Boot(manifest, freshSecret), edited, salt);
    }

    method ClearCatalogPassword(salt: nat) returns (ok: bool)
      modifies this, publicFloor
      ensures Applied(View(), ok) == Apply(env, old(View()), Clear, salt)
    {
      var cur := GetConfig();
      if cur.None? {
        return false;
      }
      var cfg := cur.value.(catalogPasswordHash := "", catalogPassword := "", catalogPasswordRequired := false);
      ok := Finish(Clear, Write(cfg), salt);
    }

    method RehashCatalogPassword(plaintext: string, salt: nat) returns (ok: bool)
      modifies this, publicFloor
      ensures Applied(View(), ok) == Apply(env, old(View()), Rehash(plaintext), salt)
    {
      var cur := GetConfig();
      if cur.None? {
        return false;
      }
      var hash := HashCatalogPassword(env.bcrypt, plaintext, salt);
      if hash.Refused? {
        return false;
      }
      var cfg := cur.value.(catalogPasswordHash := hash.text, catalogPassword := "");
      ok := Finish(Rehash(plaintext), Write(cfg), salt);
    }

    /** hUpdateConfig */
    method HUpdateConfig(request: Config, salt: nat) returns (ok: bool)
      modifies this, publicFloor
      ensures Applied(View(), ok) == Apply(env, old(View()), Patch(request), salt)
    {
      var cur := GetConfig();
      if cur.None? {
        return false;
      }
      var edited := ComputePatchEdit(env, cur.value, request);
      ok := Finish(Patch(request), edited, salt);
    }

    /** hSaveHTMLSection */
    method HSaveHTMLSection(html: string, salt: nat) returns (ok: bool)
      modifies this, publicFloor
      ensures Applied(View(), ok) == Apply(env, old(View()), SaveHTML(html), salt)
    {
      if ByteLen(html) > MAX_HTML {
        return false;
      }
      var cur := GetConfig();
      if cur.None? {
        return false;
      }
      var cfg := cur.value.(publishedHTML := env.sanitize(html));
      ok := Finish(SaveHTML(html), Write(cfg), salt);
    }
  }
}
