/**
 * Configuration and on-disk layout (src/core/config.ts, src/types/config.ts).
 * The home directory and the set of existing paths are parameters; the YAML
 * text is represented by what YAML.parse returns for it.
 */
module Config {
  import opened Wrappers

  /** path.join for two segments that need no normalisation. */
  function Join(a: string, b: string): string { a + "/" + b }

  function Root(home: string): string { Join(home, ".vaultmark") }
  function ConfigFile(home: string): string { Join(Root(home), "config.yml") }
  function CaDir(home: string): string { Join(Root(home), "ca") }
  function CaKey(home: string): string { Join(CaDir(home), "ca_key.enc") }
  function CaPub(home: string): string { Join(CaDir(home), "ca_key.pub") }
  function CaSalt(home: string): string { Join(CaDir(home), "ca_key.salt") }
  function GrantsDir(home: string): string { Join(Root(home), "grants") }
  function DbFile(home: string): string { Join(Root(home), "credentials.db") }
  function KrlFile(home: string): string { Join(Root(home), "krl") }

  /** `p` is `dir` itself or lies inside it: what a recursive rmSync of `dir` removes. */
  predicate IsUnder(p: string, dir: string)
  {
    p == dir || (|p| > |dir| && p[..|dir| + 1] == dir + "/")
  }

  /** A credential id is a single path segment. */
  predicate IsSegment(id: string) { '/' !in id }

  /** A grant's own directory, one level inside the grants directory. */
  function GrantDir(home: string, id: string): (d: string)
    ensures IsUnder(d, GrantsDir(home)) && d != GrantsDir(home)
  {
    var g := GrantsDir(home);
    assert Join(g, id)[..|g| + 1] == g + "/";
    Join(g, id)
  }

  /** The grant's private key, directly inside its directory. */
  function GrantKey(home: string, id: string): (k: string)
    ensures IsUnder(k, GrantDir(home, id)) && k == Join(GrantDir(home, id), "id_ed25519")
  {
    var d := Join(GrantsDir(home), id);
    assert Join(d, "id_ed25519")[..|d| + 1] == d + "/";
    Join(d, "id_ed25519")
  }

  /** The public key, named after the private key as ssh-keygen names it. */
  function GrantPub(home: string, id: string): (p: string)
    ensures p == GrantKey(home, id) + ".pub" && IsUnder(p, GrantDir(home, id))
  {
    var d := Join(GrantsDir(home), id);
    assert Join(d, "id_ed25519.pub")[..|d| + 1] == d + "/";
    Join(d, "id_ed25519.pub")
  }

  /** The certificate, named after the private key as `ssh-keygen -s` names it. */
  function GrantCert(home: string, id: string): (c: string)
    ensures c == GrantKey(home, id) + "-cert.pub" && IsUnder(c, GrantDir(home, id))
  {
    var d := Join(GrantsDir(home), id);
    assert Join(d, "id_ed25519-cert.pub")[..|d| + 1] == d + "/";
    Join(d, "id_ed25519-cert.pub")
  }

  /** A segment followed by nothing or by "/..." never starts with a different segment and "/". */
  lemma SegmentsDiffer(id: string, other: string, tail: string)
    requires IsSegment(id) && IsSegment(other) && id != other
    requires tail == "" || tail[0] == '/'
    ensures other + tail != id
    ensures !(|other + tail| > |id| && (other + tail)[..|id| + 1] == id + "/")
  {
    var x := other + tail;
    if tail != "" {
      assert x[|other|] == '/';
      assert |x| > |id| && |id| > |other| ==> x[..|id| + 1][|other|] != (id + "/")[|other|];
    }
    assert |id| > |other| ==> id[|other|] in id;
    assert |x| > |id| && |id| < |other| ==> x[..|id| + 1][|id|] != (id + "/")[|id|];
    assert |x| > |id| && |id| == |other| ==> x[..|id| + 1][..|id|] != (id + "/")[..|id|];
  }

  /**
   * Removing one grant's directory never touches another grant's directory or
   * anything inside it, as long as ids are single path segments.
   */
  lemma GrantDirsDisjoint(home: string, id: string, other: string, name: string)
    requires IsSegment(id) && IsSegment(other) && id != other
    ensures !IsUnder(GrantDir(home, other), GrantDir(home, id))
    ensures !IsUnder(Join(GrantDir(home, other), name), GrantDir(home, id))
  {
    var g := GrantsDir(home) + "/";
    var d := GrantDir(home, id);
    assert d == g + id;
    var tails := ["", "/" + name];
    forall t | t in tails
      ensures !IsUnder(g + (other + t), d)
    {
      SegmentsDiffer(id, other, t);
      var x := other + t;
      var q := g + x;
      assert q[|g|..] == x && d[|g|..] == id;
      assert q != d;
      if |q| > |d| {
        var a, b := x[..|id| + 1], id + "/";
        assert q[..|d| + 1] == g + a;
        assert d + "/" == g + b;
        assert (g + a)[|g|..] == a && (g + b)[|g|..] == b;
      }
    }
    assert tails[0] in tails && tails[1] in tails;
    assert GrantDir(home, other) == g + (other + tails[0]);
    assert Join(GrantDir(home, other), name) == g + (other + tails[1]);
  }

  /** isInitialized: the config file, the encrypted CA key and the CA public key all exist. */
  predicate IsInitialized(home: string, existing: set<string>): (b: bool)
    ensures b <==> {ConfigFile(home), CaKey(home), CaPub(home)} <= existing
  {
    ConfigFile(home) in existing && CaKey(home) in existing && CaPub(home) in existing
  }

  /**
   * isInitialized does not look at the CA salt: a home holding only the config
   * file and the two CA key files counts as initialized, although the salt
   * that unlocking the CA key needs is missing.
   */
  lemma InitializedWithoutSalt(home: string)
    ensures IsInitialized(home, {ConfigFile(home), CaKey(home), CaPub(home)})
    ensures CaSalt(home) !in {ConfigFile(home), CaKey(home), CaPub(home)}
  {
    assert |CaSalt(home)| == |CaKey(home)| + 1 == |CaPub(home)| + 1;
    assert |CaSalt(home)| == |ConfigFile(home)| + 4;
  }

  datatype ConfigError = NotInitialized | MalformedConfig

  /** ensureInitialized: fails with "not initialized" exactly when isInitialized is false. */
  function EnsureInitialized(home: string, existing: set<string>): (r: Outcome<ConfigError>)
    ensures r.Fail? <==> !(ConfigFile(home) in existing && CaKey(home) in existing && CaPub(home) in existing)
    ensures r.Fail? ==> r.error == NotInitialized
  {
    if IsInitialized(home, existing) then Pass else Fail(NotInitialized)
  }

  datatype Defaults = Defaults(ttl: string, passwordLength: int, passwordCharset: string)

  /** VaultMarkConfig. */
  datatype Settings = Settings(keyId: string, createdAt: string, maxTtl: string, defaults: Defaults)

  const DEFAULT_CONFIG: Settings := Settings("vaultmark-ca", "", "24h", Defaults("1h", 32, "alphanumeric"))

  /** The keys a parsed YAML mapping may carry; an absent key is None. */
  datatype PartialDefaults = PartialDefaults(ttl: Option<string>, passwordLength: Option<int>, passwordCharset: Option<string>)

  datatype PartialSettings = PartialSettings(
    keyId: Option<string>, createdAt: Option<string>, maxTtl: Option<string>, defaults: Option<PartialDefaults>)

  /** What YAML.parse returns: `null` for an empty document, otherwise a mapping. */
  datatype Document = NullDocument | Mapping(fields: PartialSettings)

  /** An object spread: a present key wins over the default. */
  function Override<T>(default: T, given: Option<T>): T
  {
    if given.Some? then given.value else default
  }

  function MergeDefaults(d: Defaults, given: Option<PartialDefaults>): Defaults
  {
    match given
    case None => d
    case Some(p) => Defaults(Override(d.ttl, p.ttl), Override(d.passwordLength, p.passwordLength),
                             Override(d.passwordCharset, p.passwordCharset))
  }

  /** `{...DEFAULT_CONFIG, ...parsed, defaults: {...DEFAULT_CONFIG.defaults, ...parsed.defaults}}`. */
  function Merge(p: PartialSettings): (s: Settings)
    ensures p == PartialSettings(None, None, None, None) ==> s == DEFAULT_CONFIG
    ensures p.keyId.Some? ==> s.keyId == p.keyId.value
    ensures p.createdAt.Some? ==> s.createdAt == p.createdAt.value
    ensures p.maxTtl.Some? ==> s.maxTtl == p.maxTtl.value
  {
    Settings(Override(DEFAULT_CONFIG.keyId, p.keyId), Override(DEFAULT_CONFIG.createdAt, p.createdAt),
             Override(DEFAULT_CONFIG.maxTtl, p.maxTtl), MergeDefaults(DEFAULT_CONFIG.defaults, p.defaults))
  }

  /**
   * loadConfig as written: for a file whose YAML is empty, `parsed` is null and
   * reading `parsed.defaults` throws a TypeError.
   */
  function LoadConfigAsWritten(file: Option<Document>): (r: Result<Settings, ConfigError>)
    ensures r.Failure? <==> file == Some(NullDocument)
    ensures file.None? ==> r == Success(DEFAULT_CONFIG)
  {
    match file
    case None => Success(DEFAULT_CONFIG)
    case Some(NullDocument) => Failure(MalformedConfig)
    case Some(Mapping(p)) => Success(Merge(p))
  }

  /** An empty config file makes the source's loadConfig throw instead of returning the defaults. */
  lemma EmptyConfigFileThrows()
    ensures LoadConfigAsWritten(Some(NullDocument)).Failure?
    ensures LoadConfigAsWritten(None) == Success(DEFAULT_CONFIG)
  {
  }

  /** loadConfig, with an empty document read as an empty mapping, as a missing file already is. */
  function LoadConfig(file: Option<Document>): (c: Settings)
    ensures file.None? || file == Some(NullDocument) ==> c == DEFAULT_CONFIG
    ensures LoadConfigAsWritten(file).Success? ==> LoadConfigAsWritten(file).value == c
  {
    match file
    case Some(Mapping(p)) => Merge(p)
    case _ => DEFAULT_CONFIG
  }

  /** Each key the file gives overrides its default; every absent key keeps its default, also inside `defaults`. */
  lemma LoadConfigFieldwise(p: PartialSettings)
    ensures LoadConfig(Some(Mapping(p))).keyId == Override(DEFAULT_CONFIG.keyId, p.keyId)
    ensures LoadConfig(Some(Mapping(p))).createdAt == Override(DEFAULT_CONFIG.createdAt, p.createdAt)
    ensures LoadConfig(Some(Mapping(p))).maxTtl == (if p.maxTtl.Some? then p.maxTtl.value else "24h")
    ensures p.defaults.None? ==> LoadConfig(Some(Mapping(p))).defaults == Defaults("1h", 32, "alphanumeric")
    ensures p.defaults.Some? ==>
              LoadConfig(Some(Mapping(p))).defaults ==
              Defaults(Override("1h", p.defaults.value.ttl), Override(32, p.defaults.value.passwordLength),
                       Override("alphanumeric", p.defaults.value.passwordCharset))
  {
  }

  /** The mapping saveConfig writes for a complete configuration: every key present. */
  function Written(c: Settings): PartialSettings
  {
    PartialSettings(Some(c.keyId), Some(c.createdAt), Some(c.maxTtl),
      Some(PartialDefaults(Some(c.defaults.ttl), Some(c.defaults.passwordLength), Some(c.defaults.passwordCharset))))
  }

  /** Loading a file that holds every key gives back exactly that configuration. */
  lemma LoadWritten(c: Settings)
    ensures LoadConfig(Some(Mapping(Written(c)))) == c
  {
  }
}
