/** The hook that connects an Odoo database to n8n: it stores the n8n base URL as a
    system parameter, ensures the technical user `n8n` with system rights, and makes
    sure that user has an API key, reusing the key cached in a secrets file. */
module ConnectOdoo {
  import opened Common
  import opened Text
  import opened OdooRecords

  // ---------------------------------------------------------------------------
  // database name and secrets paths
  // ---------------------------------------------------------------------------

  /** `_resolve_db_name`: the explicit `TARGET_DB_NAME` wins, then `<tier>_<env>_db` when
      both parts are set, then the container's `PGDATABASE` or `POSTGRES_DB`, all stripped. */
  function ResolveDbName(env: map<string, string>): (r: string)
    ensures var db := Trim(GetEnv(env, "TARGET_DB_NAME", ""));
      db != [] ==> r == db
    ensures var envName := Trim(GetEnv(env, "TARGET_ENV_NAME", ""));
      var tier := Trim(GetEnv(env, "TARGET_TIER", ""));
      Trim(GetEnv(env, "TARGET_DB_NAME", "")) == [] && envName != [] && tier != [] ==>
        r == tier + "_" + envName + "_db"
    ensures var pg := GetEnv(env, "PGDATABASE", "");
      Trim(GetEnv(env, "TARGET_DB_NAME", "")) == [] &&
      (Trim(GetEnv(env, "TARGET_ENV_NAME", "")) == [] || Trim(GetEnv(env, "TARGET_TIER", "")) == []) ==>
        r == Trim(if pg != [] then pg else GetEnv(env, "POSTGRES_DB", ""))
  {
    var db := Trim(GetEnv(env, "TARGET_DB_NAME", ""));
    if db != [] then db
    else
      var envName := Trim(GetEnv(env, "TARGET_ENV_NAME", ""));
      var tier := Trim(GetEnv(env, "TARGET_TIER", ""));
      if envName != [] && tier != [] then tier + "_" + envName + "_db"
      else
        var pg := GetEnv(env, "PGDATABASE", "");
        Trim(if pg != [] then pg else GetEnv(env, "POSTGRES_DB", ""))
  }

  /** The resolved name never has surrounding whitespace, and it is empty exactly when no
      source gives a name. A blank but set `PGDATABASE` hides `POSTGRES_DB`. */
  lemma ResolveDbNameProperties(env: map<string, string>)
    ensures Trim(ResolveDbName(env)) == ResolveDbName(env)
    ensures var pg := GetEnv(env, "PGDATABASE", "");
      ResolveDbName(env) == [] <==>
        && Trim(GetEnv(env, "TARGET_DB_NAME", "")) == []
        && (Trim(GetEnv(env, "TARGET_ENV_NAME", "")) == [] || Trim(GetEnv(env, "TARGET_TIER", "")) == [])
        && Trim(if pg != [] then pg else GetEnv(env, "POSTGRES_DB", "")) == []
  {
    var target := GetEnv(env, "TARGET_DB_NAME", "");
    var envName := Trim(GetEnv(env, "TARGET_ENV_NAME", ""));
    var tier := Trim(GetEnv(env, "TARGET_TIER", ""));
    var pg := GetEnv(env, "PGDATABASE", "");
    var fallback := if pg != [] then pg else GetEnv(env, "POSTGRES_DB", "");
    if Trim(target) != [] {
      StripIdempotent(target, Whitespace);
    } else if envName != [] && tier != [] {
      ComposedNameTrimmed(tier, envName);
    } else {
      StripIdempotent(fallback, Whitespace);
    }
  }

  /** `<tier>_<env>_db` of a trimmed non-empty tier is its own strip and not empty. */
  lemma ComposedNameTrimmed(tier: string, envName: string)
    requires tier != [] && Trim(tier) == tier
    ensures var s := tier + "_" + envName + "_db"; s != [] && Trim(s) == s
  {
    var s := tier + "_" + envName + "_db";
    StrippedIff(tier, Whitespace);
    assert s[0] == tier[0] && s[|s| - 1] == 'b';
    StrippedIff(s, Whitespace);
  }

  /** Whether a path component is absolute. */
  predicate IsAbsolute(p: string) {
    |p| > 0 && p[0] == '/'
  }

  /** `posixpath.join(a, b)`: an absolute b replaces a, otherwise b is appended with one `/`.
      The result always ends with b; a relative b keeps a as a prefix, with a `/` just before
      b whenever a is not empty, and at most one character added between them. */
  function PathJoin(a: string, b: string): (r: string)
    ensures |b| <= |r| && r[|r| - |b|..] == b
    ensures IsAbsolute(b) ==> r == b
    ensures !IsAbsolute(b) ==> a <= r && |a| + |b| <= |r| <= |a| + |b| + 1
    ensures !IsAbsolute(b) && a != [] ==> r[|r| - |b| - 1] == '/'
  {
    if IsAbsolute(b) then b
    else if a == [] || a[|a| - 1] == '/' then a + b
    else a + "/" + b
  }

  const HostSecretsBase: string := "/opt/app-dev/odoo/.secrets"
  const ContainerSecretsBase: string := "/var/lib/odoo/.secrets"
  const KeyFileName: string := "api-key.txt"

  function EnvPart(envName: string): string {
    if Trim(envName) != [] then Trim(envName) else "default"
  }

  function TierPart(tier: string): string {
    if Trim(tier) != [] then Trim(tier) else "dev"
  }

  /** `<base>/<env>/<tier>/api-key.txt`, joined as `os.path.join` joins. */
  function SecretsPathUnder(base: string, envName: string, tier: string): string {
    PathJoin(PathJoin(PathJoin(base, EnvPart(envName)), TierPart(tier)), KeyFileName)
  }

  /** `_secrets_path`. */
  function SecretsPath(envName: string, tier: string): string {
    SecretsPathUnder(HostSecretsBase, envName, tier)
  }

  /** `_container_secrets_path`. */
  function ContainerSecretsPath(envName: string, tier: string): string {
    SecretsPathUnder(ContainerSecretsBase, envName, tier)
  }

  /** The part of the path below the base directory. */
  function SecretsTail(envName: string, tier: string): string {
    PathJoin(PathJoin(EnvPart(envName), TierPart(tier)), KeyFileName)
  }

  /** Appending to a longer path appends the same way as to its last part. */
  lemma PathJoinShift(p: string, q: string, b: string)
    requires q != [] && !IsAbsolute(b)
    ensures PathJoin(p + q, b) == p + PathJoin(q, b)
  {
    assert (p + q)[|p + q| - 1] == q[|q| - 1];
    if q[|q| - 1] == '/' {
      assert PathJoin(p + q, b) == (p + q) + b;
      assert PathJoin(q, b) == q + b;
    } else {
      assert PathJoin(p + q, b) == (p + q) + "/" + b;
      assert PathJoin(q, b) == q + "/" + b;
    }
  }

  /** The host path and the container path differ only in their base directory: below
      it they share the same tail, unless an absolute environment or tier part makes
      `os.path.join` drop the base, and then they are the same path. */
  lemma SecretsPathsShareTail(envName: string, tier: string)
    ensures var e := EnvPart(envName);
      var t := TierPart(tier);
      && (IsAbsolute(e) || IsAbsolute(t) ==> SecretsPath(envName, tier) == ContainerSecretsPath(envName, tier))
      && (!IsAbsolute(e) && !IsAbsolute(t) ==>
          && SecretsPath(envName, tier) == HostSecretsBase + "/" + SecretsTail(envName, tier)
          && ContainerSecretsPath(envName, tier) == ContainerSecretsBase + "/" + SecretsTail(envName, tier))
  {
    var e := EnvPart(envName);
    var t := TierPart(tier);
    assert e != [] && t != [];
    if !IsAbsolute(e) && !IsAbsolute(t) {
      forall base | base == HostSecretsBase || base == ContainerSecretsBase
        ensures SecretsPathUnder(base, envName, tier) == base + "/" + SecretsTail(envName, tier)
      {
        assert base[|base| - 1] != '/';
        assert PathJoin(base, e) == (base + "/") + e;
        PathJoinShift(base + "/", e, t);
        PathJoinShift(base + "/", PathJoin(e, t), KeyFileName);
      }
    }
  }

  /** With plain parts, the path is `<base>/<env or default>/<tier or dev>/api-key.txt`. */
  lemma SecretsPathPlain(envName: string, tier: string)
    requires '/' !in EnvPart(envName) && '/' !in TierPart(tier)
    ensures SecretsPath(envName, tier)
         == HostSecretsBase + "/" + EnvPart(envName) + "/" + TierPart(tier) + "/" + KeyFileName
  {
    var base, e, t := HostSecretsBase, EnvPart(envName), TierPart(tier);
    assert base[|base| - 1] != '/' && e != [] && t != [];
    JoinPlain(base, e);
    JoinPlain(base + "/" + e, t);
    assert KeyFileName[0] != '/';
    assert !IsAbsolute(KeyFileName);
    var bet := base + "/" + e + "/" + t;
    assert bet[|bet| - 1] == t[|t| - 1];
  }

  /** Joining a slash-free part to a path that does not end with `/` puts one `/` between
      them, and the result does not end with `/` either. */
  lemma JoinPlain(a: string, b: string)
    requires a != [] && a[|a| - 1] != '/'
    requires b != [] && '/' !in b
    ensures PathJoin(a, b) == a + "/" + b
    ensures var r := a + "/" + b; r[|r| - 1] != '/'
  {
    assert b[0] in b && b[|b| - 1] in b;
    var r := a + "/" + b;
    assert r[|r| - 1] == b[|b| - 1];
  }


  // ---------------------------------------------------------------------------
  // system parameters
  // ---------------------------------------------------------------------------

  /** `icp.get_param(key) or ""`. */
  function StoredParam(params: map<string, string>, key: string): string {
    if key in params then params[key] else ""
  }

  /** `_ensure_param` reports a change: the stored value, trimmed, is not the value. */
  predicate ParamDiffers(params: map<string, string>, key: string, value: string) {
    Trim(StoredParam(params, key)) != value
  }

  /** The parameters after `_ensure_param`. */
  function AfterEnsure(params: map<string, string>, key: string, value: string): map<string, string> {
    if ParamDiffers(params, key, value) then params[key := value] else params
  }

  /** After `_ensure_param` the key holds the value up to surrounding whitespace, and no
      other key changed. */
  lemma EnsureParamEstablishes(params: map<string, string>, key: string, value: string)
    ensures Trim(StoredParam(AfterEnsure(params, key, value), key)) == Trim(value)
    ensures forall k :: k != key ==> StoredParam(AfterEnsure(params, key, value), k) == StoredParam(params, k)
  {
    var after := AfterEnsure(params, key, value);
    if ParamDiffers(params, key, value) {
      assert after == params[key := value];
    } else {
      assert after == params;
      StripIdempotent(StoredParam(params, key), Whitespace);
    }
  }

  /** Ensuring a value without surrounding whitespace a second time reports no change and
      changes nothing. */
  lemma EnsureParamIdempotent(params: map<string, string>, key: string, value: string)
    requires Trim(value) == value
    ensures !ParamDiffers(AfterEnsure(params, key, value), key, value)
    ensures AfterEnsure(AfterEnsure(params, key, value), key, value) == AfterEnsure(params, key, value)
  {
    EnsureParamEstablishes(params, key, value);
  }

  /** A value with surrounding whitespace is reported as changed on every call. */
  lemma EnsureParamPaddedValue(params: map<string, string>, key: string, value: string)
    requires Trim(value) != value
    ensures ParamDiffers(params, key, value)
  {
    StripIdempotent(StoredParam(params, key), Whitespace);
  }

  /** `ir.config_parameter` as a key/value table. */
  class ParamStore {
    var params: map<string, string>

    constructor (initial: map<string, string>)
      ensures params == initial
    {
      params := initial;
    }

    /** `_ensure_param`: set key to value unless its trimmed stored value already equals it. */
    method EnsureParam(key: string, value: string) returns (changed: bool)
      modifies this
      ensures changed == ParamDiffers(old(params), key, value)
      ensures params == AfterEnsure(old(params), key, value)
    {
      var current := Trim(StoredParam(params, key));
      if current == value {
        return false;
      }
      params := params[key := value];
      return true;
    }
  }

  // ---------------------------------------------------------------------------
  // the technical user
  // ---------------------------------------------------------------------------

  /** The `vals` of `_ensure_user_with_groups`: the password only when one is given, the
      groups only when at least one resolved. */
  function ConnectUserVals(login: string, password: string, groupIds: seq<nat>): (v: UserVals)
    ensures v.name == login && v.login == login
    ensures v.password.Some? <==> password != []
    ensures v.password.Some? ==> v.password.value == password
    ensures v.groups.Some? <==> groupIds != []
    ensures v.groups.Some? ==> v.groups.value == groupIds
  {
    UserVals(login, login, if password != [] then Some(password) else None,
             if groupIds != [] then Some(groupIds) else None)
  }

  /** `_ensure_user_with_groups`: the user is written or created and its id returned. */
  method EnsureUserWithGroups(store: UserStore, refs: Refs, login: string, password: string,
                              xmlids: seq<string>)
    returns (uid: nat)
    requires store.Valid()
    modifies store
    ensures store.Valid()
    ensures store.users == Upserted(old(store.users), ConnectUserVals(login, password, GroupIds(refs, xmlids)))
    ensures 0 < uid <= |store.users| && store.users[uid - 1].login == login
    ensures store.users[uid - 1].name == login
    ensures password != [] ==> store.users[uid - 1].password == Some(password)
    ensures GroupIds(refs, xmlids) != [] ==> store.users[uid - 1].groups == Some(GroupSet(GroupIds(refs, xmlids)))
  {
    var groupIds := ResolveGroupIds(refs, xmlids);
    var vals := ConnectUserVals(login, password, groupIds);
    UpsertedCarries(store.users, vals);
    uid := store.Upsert(vals);
  }

  /** The user `_ensure_user_with_groups` leaves behind: the only one with the login, named
      after it, with the password whenever one is given, and with exactly the groups the
      xmlids name whenever at least one resolves; without them an existing user keeps its
      password and groups. */
  lemma ConnectUserWritten(users: seq<User>, refs: Refs, login: string, password: string,
                           xmlids: seq<string>)
    requires UniqueLogins(users)
    ensures var r := Upserted(users, ConnectUserVals(login, password, GroupIds(refs, xmlids)));
      && UniqueLogins(r)
      && FindLogin(r, login).Some?
      && var u := r[FindLogin(r, login).value];
      && u.name == login
      && (password != [] ==> u.password == Some(password))
      && (GroupIds(refs, xmlids) != [] ==> u.groups.Some? && forall g :: g in u.groups.value <==>
            exists k :: 0 <= k < |xmlids| && IsGroupRef(refs, xmlids[k]) && refs[xmlids[k]].id == g)
    ensures var r := Upserted(users, ConnectUserVals(login, password, GroupIds(refs, xmlids)));
      FindLogin(users, login).Some? ==>
        var k := FindLogin(users, login).value;
        && (password == [] ==> r[k].password == users[k].password)
        && (GroupIds(refs, xmlids) == [] ==> r[k].groups == users[k].groups)
  {
    var vals := ConnectUserVals(login, password, GroupIds(refs, xmlids));
    UpsertedProperties(users, vals);
    UpsertedCarries(users, vals);
    GroupIdsMembers(refs, xmlids);
  }

  // ---------------------------------------------------------------------------
  // the API key
  // ---------------------------------------------------------------------------

  /** A `res.users.apikey` record; the key is None when the database generated it. */
  datatype ApiKey = ApiKey(userId: nat, key: Option<string>, note: string)

  /** What `_ensure_api_key` returns; FellThrough is the path that returns nothing. */
  datatype KeyOutcome = Outcome(created: bool, key: string) | FellThrough

  /** `ApiKey._generate_key`: missing, raising, or giving a key. */
  datatype Generator = NoGenerator | GeneratorRaises | Generates(key: string)

  /** The database as `_ensure_api_key` sees it: whether the key model exists, what the key
      generator does for a purpose, which records `create` accepts, and the key an
      accepted record without a key reads back for a purpose. */
  datatype KeyBackend = KeyBackend(
    hasModel: bool,
    generator: string -> Generator,
    accepts: ApiKey -> bool,
    autoKey: string -> Option<string>)

  /** A key of the user with the note exists. */
  predicate HasKey(keys: seq<ApiKey>, uid: nat, note: string) {
    exists i :: 0 <= i < |keys| && keys[i].userId == uid && keys[i].note == note
  }

  /** The result of `_ensure_api_key` and the records it creates. */
  function EnsureApiKeyResult(keys: seq<ApiKey>, b: KeyBackend, uid: nat, purpose: string,
                              preferred: string): (KeyOutcome, seq<ApiKey>)
  {
    var first := ApiKey(uid, Some(preferred), purpose);
    var second := ApiKey(uid, Some(preferred), purpose + "-file");
    if !b.hasModel then (Outcome(false, ""), [])
    else if preferred != [] && b.accepts(first) then (Outcome(true, preferred), [first])
    else if preferred != [] && b.accepts(second) then (Outcome(true, preferred), [second])
    else if HasKey(keys, uid, purpose) then (Outcome(false, ""), [])
    else
      match b.generator(purpose)
      case NoGenerator => (FellThrough, [])
      case Generates(k) =>
        if b.accepts(ApiKey(uid, Some(k), purpose)) then (Outcome(true, k), [ApiKey(uid, Some(k), purpose)])
        else Fallback(b, uid, purpose)
      case GeneratorRaises => Fallback(b, uid, purpose)
  }

  /** The `except` branch: a record without a key, whose key is read back if the version has one. */
  function Fallback(b: KeyBackend, uid: nat, purpose: string): (KeyOutcome, seq<ApiKey>) {
    var rec := ApiKey(uid, None, purpose);
    if b.accepts(rec) then
      (Outcome(true, match b.autoKey(purpose) case Some(k) => k case None => ""), [rec])
    else (Outcome(false, ""), [])
  }

  /** A preferred key that can be installed, under the purpose or under `purpose-file`,
      is installed and returned. */
  lemma PreferredKeyInstalled(keys: seq<ApiKey>, b: KeyBackend, uid: nat, purpose: string, preferred: string)
    requires b.hasModel && preferred != []
    requires b.accepts(ApiKey(uid, Some(preferred), purpose)) || b.accepts(ApiKey(uid, Some(preferred), purpose + "-file"))
    ensures var (out, added) := EnsureApiKeyResult(keys, b, uid, purpose, preferred);
      && out == Outcome(true, preferred)
      && |added| == 1 && added[0].userId == uid && added[0].key == Some(preferred)
      && (added[0].note == purpose || added[0].note == purpose + "-file")
  {
  }

  /** With a key already stored under the purpose, and no preferred key installed, nothing
      is created and no key is returned. */
  lemma ExistingKeyKept(keys: seq<ApiKey>, b: KeyBackend, uid: nat, purpose: string, preferred: string)
    requires HasKey(keys, uid, purpose)
    requires preferred == [] ||
      (!b.accepts(ApiKey(uid, Some(preferred), purpose)) && !b.accepts(ApiKey(uid, Some(preferred), purpose + "-file")))
    ensures EnsureApiKeyResult(keys, b, uid, purpose, preferred) == (Outcome(false, ""), [])
  {
  }

  /** A key is reported created exactly when one record was created, and that record belongs
      to the user; a returned non-empty key is the key of that record unless the
      database generated it. */
  lemma CreatedIffRecorded(keys: seq<ApiKey>, b: KeyBackend, uid: nat, purpose: string, preferred: string)
    ensures var (out, added) := EnsureApiKeyResult(keys, b, uid, purpose, preferred);
      && (out.Outcome? && out.created <==> |added| == 1)
      && (out.Outcome? && !out.created ==> out.key == [] && added == [])
      && (out.FellThrough? ==> added == [])
      && (forall i :: 0 <= i < |added| ==> added[i].userId == uid)
      && (|added| == 1 && added[0].key.Some? ==> out == Outcome(true, added[0].key.value))
  {
  }

  /** `res.users.apikey`. */
  class ApiKeyStore {
    var keys: seq<ApiKey>

    constructor (initial: seq<ApiKey>)
      ensures keys == initial
    {
      keys := initial;
    }

    /** `_ensure_api_key`. */
    method EnsureApiKey(b: KeyBackend, uid: nat, purpose: string, preferred: string) returns (out: KeyOutcome)
      modifies this
      ensures var (o, added) := EnsureApiKeyResult(old(keys), b, uid, purpose, preferred);
        out == o && keys == old(keys) + added
    {
      if !b.hasModel {
        return Outcome(false, "");
      }
      if preferred != [] {
        var first := ApiKey(uid, Some(preferred), purpose);
        if b.accepts(first) {
          keys := keys + [first];
          return Outcome(true, preferred);
        }
        var second := ApiKey(uid, Some(preferred), purpose + "-file");
        if b.accepts(second) {
          keys := keys + [second];
          return Outcome(true, preferred);
        }
      }
      if HasKey(keys, uid, purpose) {
        return Outcome(false, "");
      }
      var gen := b.generator(purpose);
      if gen.NoGenerator? {
        return FellThrough;
      }
      if gen.Generates? && b.accepts(ApiKey(uid, Some(gen.key), purpose)) {
        keys := keys + [ApiKey(uid, Some(gen.key), purpose)];
        return Outcome(true, gen.key);
      }
      var rec := ApiKey(uid, None, purpose);
      if b.accepts(rec) {
        keys := keys + [rec];
        var k := b.autoKey(purpose);
        return Outcome(true, if k.Some? then k.value else "");
      }
      return Outcome(false, "");
    }
  }

  // ---------------------------------------------------------------------------
  // main
  // ---------------------------------------------------------------------------

  /** Opening the registry of the database: it opens, or raises with a message. */
  datatype Registry = Opens | Fails(message: string)

  /** How `main` ends: with an exit code, or by an exception this model does not follow. */
  datatype Exit = Code(code: int) | Unspecified

  const ParamKey: string := "integration.n8n.base_url"

  /** The n8n URL: `N8N_URL` or the default, without trailing slashes. */
  function N8nUrl(env: map<string, string>): string {
    StripEnd(GetEnv(env, "N8N_URL", "http://n8n:5678"), {'/'})
  }

  /** `_read_text`: the stripped content of a readable file, empty otherwise. */
  function ReadText(file: Option<string>): string {
    match file
    case Some(content) => Trim(content)
    case None => ""
  }

  /** What the key steps of `main` leave: the flags and key of the last call, the key
      records created, and whether the key goes to the host secrets file. */
  datatype KeyFlow = KeyFlow(ok: bool, created: bool, keyVal: string, added: seq<ApiKey>, hostWrite: bool)

  /** The key steps of `main`: install the cached key; or ensure a key, persist a new one,
      and when none was created but a cache location exists, create one under a fresh note. */
  function KeyFlowOf(keys: seq<ApiKey>, b: KeyBackend, uid: nat, hasLocation: bool,
                     existingSecret: string, now: int): KeyFlow
  {
    if existingSecret != [] then CachedFlow(keys, b, uid, existingSecret)
    else FreshFlow(keys, b, uid, hasLocation, now)
  }

  /** Installing the cached key. */
  function CachedFlow(keys: seq<ApiKey>, b: KeyBackend, uid: nat, existingSecret: string): KeyFlow {
    match EnsureApiKeyResult(keys, b, uid, "n8n", existingSecret)
    case (FellThrough, _) => KeyFlow(false, false, "", [], false)
    case (Outcome(c, k), added) => KeyFlow(true, c, k, added, false)
  }

  /** Ensuring a key without a cached one. */
  function FreshFlow(keys: seq<ApiKey>, b: KeyBackend, uid: nat, hasLocation: bool, now: int): KeyFlow {
    match EnsureApiKeyResult(keys, b, uid, "n8n", "")
    case (FellThrough, _) => KeyFlow(false, false, "", [], false)
    case (Outcome(c, k), added) =>
      if c && k != [] then KeyFlow(true, c, k, added, true)
      else if !c && hasLocation then AltFlow(keys + added, b, uid, now, KeyFlow(true, c, k, added, false))
      else KeyFlow(true, c, k, added, false)
  }

  /** The key under the fresh note `n8n-<now>`; if that call returns nothing the exception
      is swallowed and the earlier result stays. */
  function AltFlow(keys: seq<ApiKey>, b: KeyBackend, uid: nat, now: int, before: KeyFlow): KeyFlow {
    match EnsureApiKeyResult(keys, b, uid, "n8n-" + IntToString(now), "")
    case (FellThrough, _) => before
    case (Outcome(c2, k2), added2) => KeyFlow(true, c2, k2, before.added + added2, c2 && k2 != [])
  }

  /** A cached key is never written back to the host file; a host write carries a key that
      was just created; a key stays empty unless one was installed or created. */
  lemma KeyFlowProperties(keys: seq<ApiKey>, b: KeyBackend, uid: nat, hasLocation: bool,
                          existingSecret: string, now: int)
    ensures var f := KeyFlowOf(keys, b, uid, hasLocation, existingSecret, now);
      && (existingSecret != [] ==> !f.hostWrite)
      && (f.hostWrite ==> f.ok && f.created && f.keyVal != [])
      && (f.ok && f.keyVal != [] ==> f.created)
      && (forall i :: 0 <= i < |f.added| ==> f.added[i].userId == uid)
  {
    CreatedIffRecorded(keys, b, uid, "n8n", existingSecret);
    var (o, added) := EnsureApiKeyResult(keys, b, uid, "n8n", existingSecret);
    CreatedIffRecorded(keys + added, b, uid, "n8n-" + IntToString(now), "");
  }

  /** A cached key that can be installed is installed and becomes the key of the run. */
  lemma CachedKeyReused(keys: seq<ApiKey>, b: KeyBackend, uid: nat, hasLocation: bool,
                        existingSecret: string, now: int)
    requires b.hasModel && existingSecret != []
    requires b.accepts(ApiKey(uid, Some(existingSecret), "n8n"))
    ensures KeyFlowOf(keys, b, uid, hasLocation, existingSecret, now)
         == KeyFlow(true, true, existingSecret, [ApiKey(uid, Some(existingSecret), "n8n")], false)
  {
  }

  /** `_write_text`: the stripped content and a newline, unless writing the path fails. */
  function Written(path: string, content: string, failing: set<string>): seq<(string, string)> {
    if path in failing then [] else [(path, Trim(content) + "\n")]
  }

  /** The files the key steps write: a new key to the host secrets file, then any key
      to the secrets file inside the container. */
  function KeyFiles(f: KeyFlow, hostPath: string, containerPath: string, failing: set<string>): seq<(string, string)> {
    (if f.hostWrite then Written(hostPath, f.keyVal, failing) else [])
    + (if f.keyVal != [] then Written(containerPath, f.keyVal, failing) else [])
  }

  /** The key steps of `main`, from reading the cache to writing the key files. */
  method PersistKey(keys: ApiKeyStore, b: KeyBackend, uid: nat, hasLocation: bool, existingSecret: string,
                    now: int, hostPath: string, containerPath: string, failing: set<string>)
    returns (ok: bool, keyVal: string, files: seq<(string, string)>)
    modifies keys
    ensures var f := KeyFlowOf(old(keys.keys), b, uid, hasLocation, existingSecret, now);
      && ok == f.ok
      && (ok ==> keys.keys == old(keys.keys) + f.added && keyVal == f.keyVal
                 && files == KeyFiles(f, hostPath, containerPath, failing))
  {
    var f := EnsureKey(keys, b, uid, hasLocation, existingSecret, now);
    ok, keyVal := f.ok, f.keyVal;
    files := [];
    if !ok {
      return;
    }
    files := WriteKeyFiles(f, hostPath, containerPath, failing);
  }

  /** The cached key when there is one, a fresh one otherwise. */
  method EnsureKey(keys: ApiKeyStore, b: KeyBackend, uid: nat, hasLocation: bool, existingSecret: string,
                   now: int) returns (f: KeyFlow)
    modifies keys
    ensures f == KeyFlowOf(old(keys.keys), b, uid, hasLocation, existingSecret, now)
    ensures f.ok ==> keys.keys == old(keys.keys) + f.added
  {
    if existingSecret != [] {
      f := CachedKey(keys, b, uid, existingSecret);
    } else {
      f := FreshKey(keys, b, uid, hasLocation, now);
    }
  }

  /** The writes of the key files, one after the other. */
  method WriteKeyFiles(f: KeyFlow, hostPath: string, containerPath: string, failing: set<string>)
    returns (files: seq<(string, string)>)
    ensures files == KeyFiles(f, hostPath, containerPath, failing)
  {
    files := [];
    if f.hostWrite {
      files := files + Written(hostPath, f.keyVal, failing);
    }
    if f.keyVal != [] {
      files := files + Written(containerPath, f.keyVal, failing);
    }
  }

  /** `_ensure_api_key` with the cached key. */
  method CachedKey(keys: ApiKeyStore, b: KeyBackend, uid: nat, existingSecret: string) returns (f: KeyFlow)
    modifies keys
    ensures f == CachedFlow(old(keys.keys), b, uid, existingSecret)
    ensures f.ok ==> keys.keys == old(keys.keys) + f.added
  {
    var k0 := keys.keys;
    var out := keys.EnsureApiKey(b, uid, "n8n", existingSecret);
    if out.FellThrough? {
      return KeyFlow(false, false, "", [], false);
    }
    assert keys.keys == k0 + keys.keys[|k0|..];
    f := KeyFlow(true, out.created, out.key, keys.keys[|k0|..], false);
  }

  /** `_ensure_api_key` without a cached key, and the retry under a fresh note. */
  method FreshKey(keys: ApiKeyStore, b: KeyBackend, uid: nat, hasLocation: bool, now: int) returns (f: KeyFlow)
    modifies keys
    ensures f == FreshFlow(old(keys.keys), b, uid, hasLocation, now)
    ensures f.ok ==> keys.keys == old(keys.keys) + f.added
  {
    var k0 := keys.keys;
    var out := keys.EnsureApiKey(b, uid, "n8n", "");
    if out.FellThrough? {
      return KeyFlow(false, false, "", [], false);
    }
    var added := keys.keys[|k0|..];
    assert keys.keys == k0 + added;
    var before := KeyFlow(true, out.created, out.key, added, false);
    assert EnsureApiKeyResult(k0, b, uid, "n8n", "") == (out, added);
    if out.created && out.key != [] {
      return before.(hostWrite := true);
    }
    if out.created || !hasLocation {
      return before;
    }
    f := AltKey(keys, b, uid, now, before);
  }

  /** The retry under the fresh note `n8n-<now>`. */
  method AltKey(keys: ApiKeyStore, b: KeyBackend, uid: nat, now: int, before: KeyFlow) returns (f: KeyFlow)
    requires before.ok
    modifies keys
    ensures f == AltFlow(old(keys.keys), b, uid, now, before)
    ensures keys.keys == old(keys.keys) + (f.added[|before.added|..])
    ensures |before.added| <= |f.added| && f.added[..|before.added|] == before.added
  {
    var k0 := keys.keys;
    var alt := keys.EnsureApiKey(b, uid, "n8n-" + IntToString(now), "");
    if alt.FellThrough? {
      return before;
    }
    var added := keys.keys[|k0|..];
    assert keys.keys == k0 + added;
    f := KeyFlow(true, alt.created, alt.key, before.added + added, alt.created && alt.key != []);
    assert f.added[|before.added|..] == added;
  }

  /** `main`. The files it writes, as (path, content), are returned; failing are the paths
      whose write fails, hostSecret the host secrets file (None when unreadable), now the
      time used for a fresh note. */
  method Run(env: map<string, string>, registry: Registry, params: ParamStore, users: UserStore,
             keys: ApiKeyStore, refs: Refs, b: KeyBackend, hostSecret: Option<string>,
             failing: set<string>, now: int)
    returns (exit: Exit, changed: bool, existingSecret: string, keyVal: string, files: seq<(string, string)>)
    requires users.Valid()
    modifies params, users, keys
    ensures users.Valid()
    ensures ResolveDbName(env) == [] ==>
      exit == Code(0) && files == [] && unchanged(params, users, keys)
    ensures ResolveDbName(env) != [] && registry.Fails? ==>
      && exit == Code(if Contains(Lower(registry.message), "does not exist") then 0 else 1)
      && files == [] && unchanged(params, users, keys)
    ensures ResolveDbName(env) != [] && registry.Opens? ==>
      var envName := GetEnv(env, "TARGET_ENV_NAME", "");
      var tier := GetEnv(env, "TARGET_TIER", "");
      var f := KeyFlowOf(old(keys.keys), b, BotId(old(users.users), env, refs), envName != [] && tier != [], existingSecret, now);
      && existingSecret == (if envName != [] && tier != [] then ReadText(hostSecret) else "")
      && changed == ParamDiffers(old(params.params), ParamKey, N8nUrl(env))
      && params.params == AfterEnsure(old(params.params), ParamKey, N8nUrl(env))
      && users.users == Upserted(old(users.users), BotVals(env, refs))
      && (exit == Unspecified <==> !f.ok)
      && (f.ok ==>
          && exit == Code(0)
          && keys.keys == old(keys.keys) + f.added
          && keyVal == f.keyVal
          && files == KeyFiles(f, SecretsPath(envName, tier), ContainerSecretsPath(envName, tier), failing))
  {
    files := [];
    changed := false;
    existingSecret := "";
    keyVal := "";
    if ResolveDbName(env) == [] {
      return Code(0), changed, existingSecret, keyVal, files;
    }
    if registry.Fails? {
      var code := if Contains(Lower(registry.message), "does not exist") then 0 else 1;
      return Code(code), changed, existingSecret, keyVal, files;
    }
    var ok;
    changed, existingSecret, keyVal, files, ok := Connected(env, params, users, keys, refs, b, hostSecret, failing, now);
    exit := if ok then Code(0) else Unspecified;
  }

  /** The steps of `main` once the registry is open; ok is false on the path where the
      script raises. */
  method Connected(env: map<string, string>, params: ParamStore, users: UserStore,
                   keys: ApiKeyStore, refs: Refs, b: KeyBackend, hostSecret: Option<string>,
                   failing: set<string>, now: int)
    returns (changed: bool, existingSecret: string, keyVal: string, files: seq<(string, string)>, ok: bool)
    requires users.Valid()
    modifies params, users, keys
    ensures users.Valid()
    ensures var envName := GetEnv(env, "TARGET_ENV_NAME", "");
      var tier := GetEnv(env, "TARGET_TIER", "");
      var f := KeyFlowOf(old(keys.keys), b, BotId(old(users.users), env, refs), envName != [] && tier != [], existingSecret, now);
      && existingSecret == (if envName != [] && tier != [] then ReadText(hostSecret) else "")
      && changed == ParamDiffers(old(params.params), ParamKey, N8nUrl(env))
      && params.params == AfterEnsure(old(params.params), ParamKey, N8nUrl(env))
      && users.users == Upserted(old(users.users), BotVals(env, refs))
      && ok == f.ok
      && (f.ok ==>
          && keys.keys == old(keys.keys) + f.added
          && keyVal == f.keyVal
          && files == KeyFiles(f, SecretsPath(envName, tier), ContainerSecretsPath(envName, tier), failing))
  {
    var envName := GetEnv(env, "TARGET_ENV_NAME", "");
    var tier := GetEnv(env, "TARGET_TIER", "");
    changed := params.EnsureParam(ParamKey, N8nUrl(env));
    var uid := EnsureBot(env, users, refs);
    existingSecret, keyVal, files, ok := KeySteps(env, keys, b, uid, hostSecret, failing, now);
  }

  /** The key steps of `main` for the technical user uid: read the cached key when the
      target is named, then ensure the key and write the key files. */
  method KeySteps(env: map<string, string>, keys: ApiKeyStore, b: KeyBackend, uid: nat,
                  hostSecret: Option<string>, failing: set<string>, now: int)
    returns (existingSecret: string, keyVal: string, files: seq<(string, string)>, ok: bool)
    modifies keys
    ensures var envName := GetEnv(env, "TARGET_ENV_NAME", "");
      var tier := GetEnv(env, "TARGET_TIER", "");
      var f := KeyFlowOf(old(keys.keys), b, uid, envName != [] && tier != [], existingSecret, now);
      && existingSecret == (if envName != [] && tier != [] then ReadText(hostSecret) else "")
      && ok == f.ok
      && (f.ok ==>
          && keys.keys == old(keys.keys) + f.added
          && keyVal == f.keyVal
          && files == KeyFiles(f, SecretsPath(envName, tier), ContainerSecretsPath(envName, tier), failing))
  {
    var envName := GetEnv(env, "TARGET_ENV_NAME", "");
    var tier := GetEnv(env, "TARGET_TIER", "");
    existingSecret := if envName != [] && tier != [] then ReadText(hostSecret) else "";
    ok, keyVal, files := PersistKey(keys, b, uid, envName != [] && tier != [], existingSecret, now,
                                    SecretsPath(envName, tier), ContainerSecretsPath(envName, tier), failing);
  }

  /** The upsert of the technical user; its id is the one `BotId` names. */
  method EnsureBot(env: map<string, string>, users: UserStore, refs: Refs) returns (uid: nat)
    requires users.Valid()
    modifies users
    ensures users.Valid()
    ensures users.users == Upserted(old(users.users), BotVals(env, refs))
    ensures uid == BotId(old(users.users), env, refs)
  {
    uid := EnsureUserWithGroups(users, refs, "n8n", GetEnv(env, "N8N_ODOO_PASSWORD", "n8n"), ["base.group_system"]);
    BotUid(old(users.users), env, refs);
  }

  /** The values `main` gives the technical user. */
  function BotVals(env: map<string, string>, refs: Refs): UserVals {
    ConnectUserVals("n8n", GetEnv(env, "N8N_ODOO_PASSWORD", "n8n"), GroupIds(refs, ["base.group_system"]))
  }

  /** The id of the technical user after the upsert. */
  function BotId(users: seq<User>, env: map<string, string>, refs: Refs): nat {
    match FindLogin(Upserted(users, BotVals(env, refs)), "n8n")
    case Some(i) => i + 1
    case None => 0
  }

  /** The id the upsert returns is the position of the user plus one. */
  lemma BotUid(users: seq<User>, env: map<string, string>, refs: Refs)
    requires UniqueLogins(users)
    ensures var r := Upserted(users, BotVals(env, refs));
      FindLogin(r, "n8n").Some?
      && (forall j :: 0 <= j < |r| && r[j].login == "n8n" ==> j == FindLogin(r, "n8n").value)
  {
    UpsertedProperties(users, BotVals(env, refs));
  }
}
