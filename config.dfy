/** The derived configuration values: the CORS origin decision, the
    verification-code range, the nonce lifetime, the JWT key sources and the
    audience list. */
module Config {
  import opened Wrappers
  import opened Text

  /** The `origin` option handed to the CORS middleware: `'*'`, or whether
      the request's origin is allowed. */
  datatype CorsDecision = AnyOrigin | Origin(allowed: bool)

  /** `whitelist.find((o) => origin.startsWith(o))` */
  function FindPrefix(whitelist: seq<string>, origin: string): (r: Option<nat>)
    ensures r.Some? ==> r.value < |whitelist| && StartsWith(origin, whitelist[r.value])
    ensures r.Some? ==> forall k :: 0 <= k < r.value ==> !StartsWith(origin, whitelist[k])
    ensures r.None? ==> forall k :: 0 <= k < |whitelist| ==> !StartsWith(origin, whitelist[k])
  {
    if |whitelist| == 0 then None
    else if StartsWith(origin, whitelist[0]) then Some(0)
    else match FindPrefix(whitelist[1..], origin)
      case None => None
      case Some(k) => Some(k + 1)
  }

  /** `cors.options`: `setting` is `CORS_ORIGIN` and `origin` the request's
      `Origin` header. The entry `find` returns is tested for truthiness, so
      an empty entry that comes first denies the request: an origin is
      allowed exactly when the first entry it starts with is non-empty. */
  function CorsOrigin(setting: string, origin: Option<string>): (d: CorsDecision)
    ensures setting == "*" ==> d == AnyOrigin
    ensures setting != "*" && !Truthy(origin) ==> d == Origin(false)
    ensures setting != "*" && Truthy(origin) ==> d == Origin(FirstMatchNonEmpty(Split(setting, ','), origin.value))
  {
    if setting == "*" then AnyOrigin
    else if !Truthy(origin) then Origin(false)
    else
      var whitelist := Split(setting, ',');
      match FindPrefix(whitelist, origin.value)
      case None => Origin(false)
      case Some(k) =>
        FirstPrefixDecides(whitelist, origin.value, k);
        Origin(whitelist[k] != "")
  }

  /** Some non-empty entry is the first entry that `origin` starts with. */
  predicate FirstMatchNonEmpty(whitelist: seq<string>, origin: string) {
    exists k :: 0 <= k < |whitelist| && whitelist[k] != "" && StartsWith(origin, whitelist[k])
                && forall j :: 0 <= j < k ==> !StartsWith(origin, whitelist[j])
  }

  /** When `k` is the first entry the origin starts with, the entry found is
      non-empty exactly when some non-empty entry is the first such entry. */
  lemma FirstPrefixDecides(whitelist: seq<string>, origin: string, k: nat)
    requires k < |whitelist| && StartsWith(origin, whitelist[k])
    requires forall j :: 0 <= j < k ==> !StartsWith(origin, whitelist[j])
    ensures (whitelist[k] != "") == FirstMatchNonEmpty(whitelist, origin)
  {
    if whitelist[k] != "" {
      assert 0 <= k < |whitelist| && whitelist[k] != "" && StartsWith(origin, whitelist[k]);
    }
  }

  /** Without empty entries, an origin is allowed exactly when some entry of
      the comma-separated setting is a prefix of it. */
  lemma CorsPrefixMatch(setting: string, origin: string)
    requires setting != "*" && origin != ""
    requires forall k :: 0 <= k < |Split(setting, ',')| ==> Split(setting, ',')[k] != ""
    ensures CorsOrigin(setting, Some(origin)) ==
              Origin(exists k :: 0 <= k < |Split(setting, ',')| && StartsWith(origin, Split(setting, ',')[k]))
  {
    var whitelist := Split(setting, ',');
    var found := FindPrefix(whitelist, origin);
    if found.Some? {
      assert StartsWith(origin, whitelist[found.value]) && whitelist[found.value] != "";
      assert CorsOrigin(setting, Some(origin)) == Origin(true);
      var k := found.value;
      assert 0 <= k < |Split(setting, ',')| && StartsWith(origin, Split(setting, ',')[k]);
    }
  }

  /** The match is on prefixes: when no entry is empty, any origin that
      extends an entry, such as a longer host name, is allowed too. */
  lemma CorsAllowsExtendedOrigin(setting: string, entry: string, suffix: string)
    requires setting != "*" && entry in Split(setting, ',') && entry != ""
    requires forall k :: 0 <= k < |Split(setting, ',')| ==> Split(setting, ',')[k] != ""
    ensures CorsOrigin(setting, Some(entry + suffix)) == Origin(true)
  {
    var whitelist := Split(setting, ',');
    var k :| 0 <= k < |whitelist| && whitelist[k] == entry;
    assert (entry + suffix)[..|entry|] == entry;
    assert StartsWith(entry + suffix, whitelist[k]);
    CorsPrefixMatch(setting, entry + suffix);
  }

  /** `security.code.min` and `security.code.max` for `SECURITY_CODE_LENGTH`. */
  datatype CodeRange = CodeRange(min: nat, max: nat)

  function CodeRangeFor(length: nat): (r: CodeRange)
    requires length >= 1
    ensures r.min == Pow10(length - 1) && r.max == Pow10(length) - 1
  {
    CodeRange(Pow10(length - 1), Pow10(length) - 1)
  }

  /** Every value `randomInt(min, max)` can draw is written with exactly
      `length` digits; `max` itself (all nines) has `length` digits too, but is
      never drawn. */
  lemma CodeRangeDigits(length: nat, v: nat)
    requires length >= 1
    ensures var r := CodeRangeFor(length);
      r.min <= v < r.max ==> |DecimalString(v)| == length
    ensures |DecimalString(CodeRangeFor(length).max)| == length
  {
    var r := CodeRangeFor(length);
    if r.min <= v < r.max {
      DecimalLength(v, length);
    }
    Pow10AtLeastTen(length);
    DecimalLength(r.max, length);
    assert Pow10(length) == 10 * Pow10(length - 1);
  }

  /** `nonce.ttl`: `NONCE_TTL` seconds in milliseconds. */
  function NonceTtl(seconds: int): (ms: int)
    ensures ms % 1000 == 0 && ms / 1000 == seconds
  {
    seconds * 1000
  }

  const PemHeader := "-----BEGIN"

  /** Which of the two JWT keys an entry of the key table fills. */
  datatype KeyName = PublicKey | PrivateKey

  /** An entry of the key table: the key it fills and the setting it reads. */
  datatype CertSpec = CertSpec(key: KeyName, envVar: string)

  const CertSpecs := [CertSpec(PublicKey, "JWT_PUBLIC_KEY"), CertSpec(PrivateKey, "JWT_PRIVATE_KEY")]

  /** The two keys, `''` when no entry filled them. */
  datatype JwtKeys = JwtKeys(publicKey: string, privateKey: string)

  function SetKey(keys: JwtKeys, name: KeyName, value: string): JwtKeys {
    match name
    case PublicKey => keys.(publicKey := value)
    case PrivateKey => keys.(privateKey := value)
  }

  function KeyOf(keys: JwtKeys, name: KeyName): string {
    match name
    case PublicKey => keys.publicKey
    case PrivateKey => keys.privateKey
  }

  /** Where a key comes from: a setting holding a PEM block is the key itself;
      otherwise it names a file, read when it exists (`files`), and a read
      failure leaves nothing. */
  function KeySource(setting: string, files: map<string, string>): (r: Option<string>)
    ensures StartsWith(setting, PemHeader) ==> r == Some(setting)
    ensures !StartsWith(setting, PemHeader) && setting in files ==> r == Some(files[setting])
    ensures !StartsWith(setting, PemHeader) && setting !in files ==> r.None?
  {
    if StartsWith(setting, PemHeader) then Some(setting)
    else if setting in files then Some(files[setting])
    else None
  }

  /** The `reduce` over the key table, starting from `prev`. */
  function LoadKeys(specs: seq<CertSpec>, env: map<string, string>, files: map<string, string>, prev: JwtKeys): JwtKeys
    requires forall k :: 0 <= k < |specs| ==> specs[k].envVar in env
  {
    if |specs| == 0 then prev
    else
      var next := match KeySource(env[specs[0].envVar], files)
        case Some(v) => SetKey(prev, specs[0].key, v)
        case None => prev;
      LoadKeys(specs[1..], env, files, next)
  }

  /** `jwt.publicKey` and `jwt.privateKey`: defaults of `''` overridden by the
      keys the table found. */
  function JwtKeysFrom(env: map<string, string>, files: map<string, string>): JwtKeys
    requires "JWT_PUBLIC_KEY" in env && "JWT_PRIVATE_KEY" in env
  {
    LoadKeys(CertSpecs, env, files, JwtKeys("", ""))
  }

  /** Each key comes from its own setting: the PEM block itself, else the
      named file's content, else `''`. */
  lemma JwtKeySources(env: map<string, string>, files: map<string, string>)
    requires "JWT_PUBLIC_KEY" in env && "JWT_PRIVATE_KEY" in env
    ensures JwtKeysFrom(env, files).publicKey == KeySource(env["JWT_PUBLIC_KEY"], files).GetOr("")
    ensures JwtKeysFrom(env, files).privateKey == KeySource(env["JWT_PRIVATE_KEY"], files).GetOr("")
  {
    var first := match KeySource(env["JWT_PUBLIC_KEY"], files)
      case Some(v) => SetKey(JwtKeys("", ""), PublicKey, v)
      case None => JwtKeys("", "");
    assert CertSpecs[1..] == [CertSpec(PrivateKey, "JWT_PRIVATE_KEY")];
    assert CertSpecs[1..][1..] == [];
    assert JwtKeysFrom(env, files) == LoadKeys([CertSpec(PrivateKey, "JWT_PRIVATE_KEY")], env, files, first);
  }

  /** `jwt.aud`: `JWT_AUDIENCE` split on commas, missing when it is. */
  function Audience(setting: Option<string>): (aud: Option<seq<string>>)
    ensures aud.Some? <==> setting.Some?
    ensures aud.Some? ==> |aud.value| >= 1 && Join(aud.value, ',') == setting.value
    ensures aud.Some? ==> forall k :: 0 <= k < |aud.value| ==> ',' !in aud.value[k]
  {
    match setting
    case None => None
    case Some(s) => JoinSplit(s, ','); Some(Split(s, ','))
  }
}
