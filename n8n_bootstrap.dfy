/** The n8n post-init bootstrap: it finds a base URL where n8n answers, reads the
    settings to tell whether the instance owner exists, and otherwise posts the owner
    to the known setup endpoints, classifying each reply. HTTP is an input here: the
    replies of n8n are given as functions of the URL. */
module N8nBootstrap {
  import opened Common
  import opened Text

  // ---------------------------------------------------------------------------
  // DNS errors
  // ---------------------------------------------------------------------------

  /** The messages of a failed name lookup, lower-cased. */
  const DnsMarkers: seq<string> := [
    "temporary failure in name resolution",
    "name or service not known",
    "nodename nor servname provided",
    "getaddrinfo failed",
    "[errno -3]",
    "[errno -2]"
  ]

  /** `message or ""`. */
  function MessageText(message: Option<string>): string {
    match message
    case Some(m) => m
    case None => ""
  }

  /** msg contains one of the markers, tried in order. */
  predicate ContainsAny(msg: string, markers: seq<string>)
    decreases |markers|
  {
    |markers| > 0 && (Contains(msg, markers[0]) || ContainsAny(msg, markers[1..]))
  }

  /** `_is_dns_error`. */
  predicate IsDnsError(message: Option<string>) {
    ContainsAny(Lower(MessageText(message)), DnsMarkers)
  }

  lemma {:induction false} ContainsAnyIff(msg: string, markers: seq<string>)
    ensures ContainsAny(msg, markers) <==> exists i :: 0 <= i < |markers| && Contains(msg, markers[i])
    decreases |markers|
  {
    if |markers| > 0 {
      ContainsAnyIff(msg, markers[1..]);
      if exists i :: 0 <= i < |markers| && Contains(msg, markers[i]) {
        var i :| 0 <= i < |markers| && Contains(msg, markers[i]);
        if i > 0 {
          assert markers[1..][i - 1] == markers[i];
        }
      }
      if ContainsAny(msg, markers[1..]) {
        var i :| 0 <= i < |markers[1..]| && Contains(msg, markers[1..][i]);
        assert markers[i + 1] == markers[1..][i];
      }
    }
  }

  /** A message is a DNS error exactly when, lower-cased, it contains one of the six markers. */
  lemma DnsErrorIff(message: Option<string>)
    ensures IsDnsError(message) <==>
      exists i :: 0 <= i < |DnsMarkers| && Contains(Lower(MessageText(message)), DnsMarkers[i])
  {
    ContainsAnyIff(Lower(MessageText(message)), DnsMarkers);
  }

  /** No message, or an empty one, is not a DNS error. */
  lemma NoMessageNoDnsError(message: Option<string>)
    requires message == None || message == Some("")
    ensures !IsDnsError(message)
  {
    DnsErrorIff(message);
    assert Lower(MessageText(message)) == [];
    forall i | 0 <= i < |DnsMarkers|
      ensures !Contains([], DnsMarkers[i])
    {
      assert DnsMarkers[i] != [];
    }
  }

  // ---------------------------------------------------------------------------
  // candidate base URLs and waiting
  // ---------------------------------------------------------------------------

  /** `os.environ.get(key) or default`: an empty value counts as unset. */
  function EnvOr(env: map<string, string>, key: string, default: string): (r: string)
    ensures key in env && env[key] != [] ==> r == env[key]
    ensures !(key in env && env[key] != []) ==> r == default
    ensures r == [] ==> default == []
  {
    if key in env && env[key] != [] then env[key] else default
  }

  const DefaultUrl: string := "http://n8n:5678"
  const FallbackUrls: seq<string> := ["http://n8n:5678", "http://localhost:5678", "http://127.0.0.1:5678"]

  function Primary(env: map<string, string>): string {
    Trim(EnvOr(env, "N8N_URL", DefaultUrl))
  }

  function AltsRaw(env: map<string, string>): string {
    Trim(EnvOr(env, "N8N_ALT_URLS", ""))
  }

  /** The comma-separated alternates, trimmed, blank ones dropped. */
  function Alternates(env: map<string, string>): seq<string> {
    if AltsRaw(env) != [] then KeptTokens(Split(AltsRaw(env), ',')) else []
  }

  /** The candidates before de-duplication: primary, alternates, then the fallbacks. */
  function RawCandidates(env: map<string, string>): seq<string> {
    (if Primary(env) != [] then [Primary(env)] else []) + Alternates(env) + FallbackUrls
  }

  /** The URL does not end with `/`. */
  predicate NoTrailingSlash(u: string) {
    u == [] || u[|u| - 1] != '/'
  }

  /** `u.rstrip("/")`. */
  function RStripSlash(u: string): (r: string)
    ensures NoTrailingSlash(r)
  {
    StripEnd(u, {'/'})
  }

  function RStripAll(us: seq<string>): (r: seq<string>)
    ensures |r| == |us| && forall i :: 0 <= i < |us| ==> r[i] == RStripSlash(us[i])
  {
    seq(|us|, i requires 0 <= i < |us| => RStripSlash(us[i]))
  }

  /** What `_candidate_base_urls` returns. */
  function CandidateUrls(env: map<string, string>): seq<string> {
    Dedup(RStripAll(RawCandidates(env)))
  }

  /** `_candidate_base_urls`. */
  method CandidateBaseUrls(env: map<string, string>) returns (unique: seq<string>)
    ensures unique == CandidateUrls(env)
  {
    var candidates := CollectCandidates(env);
    unique := DedupStripped(candidates);
  }

  /** The first half of `_candidate_base_urls`: primary, alternates and fallbacks appended in turn. */
  method CollectCandidates(env: map<string, string>) returns (candidates: seq<string>)
    ensures candidates == RawCandidates(env)
  {
    var primary := Primary(env);
    var altsRaw := AltsRaw(env);
    var head: seq<string> := [];
    if primary != [] {
      head := [primary];
    }
    var alts: seq<string> := [];
    if altsRaw != [] {
      alts := AlternatesOf(altsRaw);
    }
    assert alts == Alternates(env);
    candidates := head + alts + FallbackUrls;
  }

  /** The loop over the comma-separated alternates. */
  method AlternatesOf(altsRaw: string) returns (alts: seq<string>)
    ensures alts == KeptTokens(Split(altsRaw, ','))
  {
    var parts := Split(altsRaw, ',');
    alts := [];
    for i := 0 to |parts|
      invariant alts == KeptTokens(parts[..i])
    {
      KeptTokensStep(parts, i);
      var url := Trim(parts[i]);
      if url != [] {
        alts := alts + [url];
      }
    }
    assert parts[..|parts|] == parts;
  }

  /** The second half of `_candidate_base_urls`: strip trailing slashes and keep first occurrences. */
  method DedupStripped(candidates: seq<string>) returns (unique: seq<string>)
    ensures unique == Dedup(RStripAll(candidates))
  {
    var seen: set<string> := {};
    unique := [];
    for i := 0 to |candidates|
      invariant unique == Dedup(RStripAll(candidates[..i]))
      invariant forall x :: x in seen <==> x in unique
    {
      var prev := RStripAll(candidates[..i]);
      var next := RStripAll(candidates[..i + 1]);
      assert next == prev + [RStripSlash(candidates[i])];
      assert next[..i] == prev;
      var u2 := RStripSlash(candidates[i]);
      if u2 !in seen {
        seen := seen + {u2};
        unique := unique + [u2];
      }
    }
    assert candidates[..|candidates|] == candidates;
  }

  /** A fallback URL has no trailing slash, so stripping leaves it as it is. */
  lemma FallbacksUnstripped()
    ensures forall i :: 0 <= i < |FallbackUrls| ==> RStripSlash(FallbackUrls[i]) == FallbackUrls[i]
  {
    forall i | 0 <= i < |FallbackUrls|
      ensures RStripSlash(FallbackUrls[i]) == FallbackUrls[i]
    {
      var u := FallbackUrls[i];
      assert u[|u| - 1] == '8';
    }
  }

  /** The candidates are distinct, each is a stripped raw candidate and every raw
      candidate is represented, first occurrences keep their order, and the three
      fallbacks are always there, so the list is never empty. */
  lemma CandidateUrlsProperties(env: map<string, string>)
    ensures NoDuplicates(CandidateUrls(env))
    ensures forall x :: x in CandidateUrls(env) <==> x in RStripAll(RawCandidates(env))
    ensures forall i, j :: 0 <= i < j < |CandidateUrls(env)| ==>
      FirstIndex(RStripAll(RawCandidates(env)), CandidateUrls(env)[i]) < FirstIndex(RStripAll(RawCandidates(env)), CandidateUrls(env)[j])
    ensures forall i :: 0 <= i < |FallbackUrls| ==> FallbackUrls[i] in CandidateUrls(env)
    ensures |CandidateUrls(env)| > 0
  {
    var raw := RStripAll(RawCandidates(env));
    var r := CandidateUrls(env);
    assert r == Dedup(raw);
    DedupNoDuplicates(raw);
    DedupMembers(raw);
    DedupOrder(raw);
    FallbacksPresent(env);
    assert FallbackUrls[0] in r;
  }

  /** No candidate ends with `/`. */
  lemma CandidateUrlsNoSlash(env: map<string, string>)
    ensures forall u :: u in CandidateUrls(env) ==> NoTrailingSlash(u)
  {
    StrippedHaveNoSlash(RawCandidates(env));
  }

  /** Stripped candidates do not end with `/`, and neither do their de-duplication. */
  lemma StrippedHaveNoSlash(us: seq<string>)
    ensures forall u :: u in Dedup(RStripAll(us)) ==> NoTrailingSlash(u)
  {
    var raw := RStripAll(us);
    DedupMembers(raw);
    forall u | u in Dedup(raw)
      ensures NoTrailingSlash(u)
    {
      assert u in raw;
      var k :| 0 <= k < |raw| && raw[k] == u;
    }
  }

  /** The three fallbacks end every raw candidate list, unchanged by stripping. */
  lemma FallbacksPresent(env: map<string, string>)
    ensures forall i :: 0 <= i < |FallbackUrls| ==> FallbackUrls[i] in CandidateUrls(env)
  {
    FallbacksUnstripped();
    var pre := (if Primary(env) != [] then [Primary(env)] else []) + Alternates(env);
    assert RawCandidates(env) == pre + FallbackUrls;
    UnstrippedTailPresent(pre, FallbackUrls);
  }

  /** URLs that stripping leaves as they are survive, after any prefix, into the
      de-duplicated stripped list. */
  lemma UnstrippedTailPresent(pre: seq<string>, tail: seq<string>)
    requires forall i :: 0 <= i < |tail| ==> RStripSlash(tail[i]) == tail[i]
    ensures forall i :: 0 <= i < |tail| ==> tail[i] in Dedup(RStripAll(pre + tail))
  {
    var raw := RStripAll(pre + tail);
    DedupMembers(raw);
    forall i | 0 <= i < |tail|
      ensures tail[i] in raw
    {
      assert (pre + tail)[|pre| + i] == tail[i];
      assert raw[|pre| + i] == tail[i];
    }
  }

  /** The wait budget: `N8N_BOOTSTRAP_WAIT_SECONDS` (default 120) read as `int()` reads
      it, 120 when that raises, and never less than ten seconds. */
  function WaitBudget(env: map<string, string>): (r: int)
    ensures r >= 10
    ensures ParseInt(Trim(EnvOr(env, "N8N_BOOTSTRAP_WAIT_SECONDS", "120"))).None? ==> r == 120
    ensures ParseInt(Trim(EnvOr(env, "N8N_BOOTSTRAP_WAIT_SECONDS", "120"))).Some? ==>
      r == Max(10, ParseInt(Trim(EnvOr(env, "N8N_BOOTSTRAP_WAIT_SECONDS", "120"))).value)
  {
    var total := match ParseInt(Trim(EnvOr(env, "N8N_BOOTSTRAP_WAIT_SECONDS", "120")))
      case Some(n) => n
      case None => 120;
    Max(10, total)
  }

  function Max(a: int, b: int): int {
    if a >= b then a else b
  }

  /** The timeout of one candidate: the whole seconds left, but at least 5 and at most 12. */
  function PerTry(remaining: int): (r: int)
    ensures 5 <= r <= 12
    ensures 5 <= remaining <= 12 ==> r == remaining
    ensures remaining < 5 ==> r == 5
    ensures remaining > 12 ==> r == 12
  {
    var remain := Max(5, remaining);
    if remain <= 12 then remain else 12
  }

  /** The base URL one sweep over the candidates settles on: the stripped first
      candidate that is ready; empty when none is. */
  function FirstReady(candidates: seq<string>, ready: string -> bool): string
    decreases |candidates|
  {
    if candidates == [] then ""
    else if ready(RStripSlash(candidates[0])) then RStripSlash(candidates[0])
    else FirstReady(candidates[1..], ready)
  }

  /** With candidates that are already stripped, a non-empty base URL is the first
      ready candidate. */
  lemma {:induction false} FirstReadyIsFirst(candidates: seq<string>, ready: string -> bool)
    requires forall i :: 0 <= i < |candidates| ==> RStripSlash(candidates[i]) == candidates[i]
    ensures var b := FirstReady(candidates, ready);
      b != [] ==> (exists k :: 0 <= k < |candidates| && candidates[k] == b && ready(b)
                    && forall j :: 0 <= j < k ==> !ready(candidates[j]))
    ensures (forall i :: 0 <= i < |candidates| ==> !ready(candidates[i])) ==> FirstReady(candidates, ready) == []
    decreases |candidates|
  {
    if candidates != [] {
      var t := candidates[1..];
      FirstReadyIsFirst(t, ready);
      if !ready(candidates[0]) && FirstReady(t, ready) != [] {
        var k :| 0 <= k < |t| && t[k] == FirstReady(t, ready) && ready(t[k])
          && forall j :: 0 <= j < k ==> !ready(t[j]);
        assert candidates[k + 1] == t[k];
        forall j | 0 <= j < k + 1
          ensures !ready(candidates[j])
        {
          if j > 0 {
            assert candidates[j] == t[j - 1];
          }
        }
      }
    }
  }

  /** The sweep of `main` over the candidates; readiness (`_wait_for_ready` within its
      timeout) is the same in every sweep, so one sweep decides. */
  method SelectBaseUrl(candidates: seq<string>, ready: string -> bool) returns (baseUrl: string)
    ensures baseUrl == FirstReady(candidates, ready)
  {
    baseUrl := "";
    var i := 0;
    while i < |candidates|
      invariant 0 <= i <= |candidates|
      invariant FirstReady(candidates, ready) == FirstReady(candidates[i..], ready)
    {
      assert candidates[i..][1..] == candidates[i + 1..];
      var candidate := RStripSlash(candidates[i]);
      if ready(candidate) {
        baseUrl := candidate;
        return;
      }
      i := i + 1;
    }
  }

  // ---------------------------------------------------------------------------
  // settings
  // ---------------------------------------------------------------------------

  /** A decoded JSON value (numbers are integers here). */
  datatype Json = JNull | JBool(b: bool) | JNum(n: int) | JStr(s: string) | JList(items: seq<Json>)
                | JObject(fields: map<string, Json>)

  /** Python's truth value of the decoded value. */
  predicate Truthy(j: Json) {
    match j
    case JNull => false
    case JBool(b) => b
    case JNum(n) => n != 0
    case JStr(s) => s != []
    case JList(items) => items != []
    case JObject(fields) => fields != map[]
  }

  /** `d.get(key)`, None when absent. */
  function Get(d: map<string, Json>, key: string): Json {
    if key in d then d[key] else JNull
  }

  /** Newer n8n versions wrap the settings in a `data` object. */
  function Unwrap(settings: map<string, Json>): (r: map<string, Json>)
    ensures Get(settings, "data").JObject? ==> r == settings["data"].fields
    ensures !Get(settings, "data").JObject? ==> r == settings
  {
    match Get(settings, "data")
    case JObject(fields) => fields
    case _ => settings
  }

  /** Whether the owner is set up: Some(flag), or None when `userManagement` is a truthy
      value other than an object, on which `.get` raises. */
  function OwnerSetUp(settings: map<string, Json>): Option<bool> {
    var um := Get(settings, "userManagement");
    if !Truthy(um) then Some(false)
    else match um
      case JObject(f) =>
        Some(Truthy(Get(f, "isInstanceOwnerSetUp")) || Truthy(Get(f, "isInstanceOwnerInitialized"))
             || ("showSetupOnFirstLoad" in f && f["showSetupOnFirstLoad"] == JBool(false)))
      case _ => None
  }

  /** The owner counts as set up exactly when one of the two flags is truthy or
      `showSetupOnFirstLoad` is present and literally false; a missing or empty
      `userManagement` means not set up. */
  lemma OwnerSetUpIff(settings: map<string, Json>)
    ensures var um := Get(settings, "userManagement");
      && (OwnerSetUp(settings) == Some(true) <==>
          um.JObject? &&
          (Truthy(Get(um.fields, "isInstanceOwnerSetUp")) || Truthy(Get(um.fields, "isInstanceOwnerInitialized"))
           || Get(um.fields, "showSetupOnFirstLoad") == JBool(false)))
      && (OwnerSetUp(settings).None? <==> Truthy(um) && !um.JObject?)
      && (!Truthy(um) ==> OwnerSetUp(settings) == Some(false))
  {
    var um := Get(settings, "userManagement");
    if um.JObject? && !Truthy(um) {
      assert um.fields == map[];
    }
  }

  /** `rest_prefix`: `/` and the first truthy of `endpoint`, `restEndpoint` and `rest`,
      without surrounding slashes; None when that value is not a string and `.strip` raises. */
  function RestPrefix(settings: map<string, Json>): Option<string> {
    match Endpoint(settings)
    case JStr(s) => Some("/" + Strip(s, {'/'}))
    case _ => None
  }

  /** `settings.get("endpoint") or settings.get("restEndpoint") or "rest"`. */
  function Endpoint(settings: map<string, Json>): Json {
    var e := Get(settings, "endpoint");
    var r := Get(settings, "restEndpoint");
    if Truthy(e) then e else if Truthy(r) then r else JStr("rest")
  }

  /** The prefix is one `/` followed by a part that neither starts nor ends with `/`. */
  lemma RestPrefixProperties(settings: map<string, Json>)
    ensures var p := RestPrefix(settings);
      p.Some? ==> |p.value| >= 1 && p.value[0] == '/'
                  && (|p.value| == 1 || (p.value[1] != '/' && p.value[|p.value| - 1] != '/'))
  {
    var v := Endpoint(settings);
    if v.JStr? {
      PrefixShape(v.s);
      assert RestPrefix(settings) == Some("/" + Strip(v.s, {'/'}));
    }
  }

  /** With neither setting the prefix is `/rest`. */
  lemma RestPrefixDefault(settings: map<string, Json>)
    requires !Truthy(Get(settings, "endpoint")) && !Truthy(Get(settings, "restEndpoint"))
    ensures RestPrefix(settings) == Some("/rest")
  {
    assert Endpoint(settings) == JStr("rest");
    assert RestPrefix(settings) == Some("/" + Strip("rest", {'/'}));
    RestUnstripped();
  }

  /** A non-empty string `endpoint` wins over `restEndpoint`. */
  lemma RestPrefixEndpoint(settings: map<string, Json>)
    requires Get(settings, "endpoint").JStr? && Get(settings, "endpoint").s != []
    ensures RestPrefix(settings) == Some("/" + Strip(Get(settings, "endpoint").s, {'/'}))
  {
  }

  lemma RestUnstripped()
    ensures "/" + Strip("rest", {'/'}) == "/rest"
  {
    StrippedIff("rest", {'/'});
    assert Strip("rest", {'/'}) == "rest";
  }

  lemma PrefixShape(s: string)
    ensures var p := "/" + Strip(s, {'/'});
      |p| >= 1 && p[0] == '/' && (|p| == 1 || (p[1] != '/' && p[|p| - 1] != '/'))
  {
    var t := Strip(s, {'/'});
    assert t == [] || (t[0] != '/' && t[|t| - 1] != '/');
  }

  // ---------------------------------------------------------------------------
  // setup replies
  // ---------------------------------------------------------------------------

  /** The reply to a POST: a status and decoded body, an `HTTPError` with its code and
      body text (empty when it cannot be read), or any other exception. */
  datatype Reply = Reply(status: int, body: Json) | HttpError(code: int, detail: string) | Broken

  /** `(body or {}).get("message", "")`; None when `.get` or `.lower` would raise. */
  function MessageOf(body: Json): Option<string> {
    if !Truthy(body) then Some("")
    else match body
      case JObject(f) => if "message" !in f then Some("") else (match f["message"] case JStr(s) => Some(s) case _ => None)
      case _ => None
  }

  /** The text says the owner already exists. */
  predicate SaysInitialized(msg: string) {
    Contains(Lower(msg), "already") || Contains(Lower(msg), "initialized")
  }

  /** What one reply decides: an exit code, try the next attempt, or an `HTTPError` for
      the handler. */
  datatype Step = Done(code: int) | Next | ToHandler(code: int, detail: string)

  /** A reply that is a plain failure: a status that neither succeeds nor says the owner exists. */
  predicate PlainFailure(r: Reply) {
    r.Reply? && r.status !in {200, 201} &&
    !((r.status == 400 || r.status == 409) && (MessageOf(r.body).None? || SaysInitialized(MessageOf(r.body).value)))
  }

  lemma PlainFailureMovesOn(r: Reply)
    requires PlainFailure(r)
    ensures PlainStep(r) == Next
  {
  }

  /** A reply to one of the three plain setup endpoints. */
  function PlainStep(r: Reply): (s: Step)
    ensures r.Reply? && (r.status == 200 || r.status == 201) ==> s == Done(0)
    ensures (r.Reply? && (r.status == 400 || r.status == 409) && MessageOf(r.body).Some? &&
             SaysInitialized(MessageOf(r.body).value)) ==> s == Done(0)
    ensures r.HttpError? ==> s == ToHandler(r.code, r.detail)
    ensures s.Done? ==> s.code == 0 || s.code == 1
    ensures s == Done(1) <==>
      r.Broken? || (r.Reply? && (r.status == 400 || r.status == 409) && MessageOf(r.body).None?)
    ensures s == Next <==> PlainFailure(r)
    ensures s.ToHandler? <==> r.HttpError?
  {
    match r
    case Reply(status, body) =>
      if status == 200 || status == 201 then Done(0)
      else if status == 400 || status == 409 then
        match MessageOf(body)
        case None => Done(1)
        case Some(m) => if SaysInitialized(m) then Done(0) else Next
      else Next
    case HttpError(code, detail) => ToHandler(code, detail)
    case Broken => Done(1)
  }

  /** The three plain setup URLs, in the order they are tried. */
  function PlainUrls(base: string, prefix: string): seq<string> {
    [base + prefix + "/owner/setup", base + prefix + "/setup", base + prefix + "/user-management/setup"]
  }

  /** The plain attempts: the step of the first deciding reply (exit 1 when none decides)
      and the number of POSTs made. */
  function Plain(urls: seq<string>, post: string -> Reply): (r: (Step, nat))
    ensures r.1 <= |urls| && !r.0.Next?
    ensures r.0.Done? ==> r.0.code == 0 || r.0.code == 1
    ensures forall j :: 0 <= j < r.1 - 1 ==> PlainStep(post(urls[j])) == Next
    ensures r.0.ToHandler? ==> r.1 >= 1 && post(urls[r.1 - 1]) == HttpError(r.0.code, r.0.detail)
    decreases |urls|
  {
    if urls == [] then (Done(1), 0)
    else match PlainStep(post(urls[0]))
      case Next => var (s, n) := Plain(urls[1..], post); (s, n + 1)
      case s => (s, 1)
  }

  /** The plain attempts, tried in order until one decides. */
  method PlainAttempts(urls: seq<string>, post: string -> Reply) returns (step: Step, tried: nat)
    ensures (step, tried) == Plain(urls, post)
  {
    var i := 0;
    while i < |urls|
      invariant 0 <= i <= |urls|
      invariant Plain(urls, post) == (Plain(urls[i..], post).0, Plain(urls[i..], post).1 + i)
    {
      assert urls[i..][1..] == urls[i + 1..];
      var s := PlainStep(post(urls[i]));
      if !s.Next? {
        return s, i + 1;
      }
      i := i + 1;
    }
    return Done(1), i;
  }

  /** The fallback paths in the order they are tried (before de-duplication). */
  function FallbackCandidates(prefix: string): seq<string> {
    [prefix + "/owner/setup", prefix + "/user-management/setup", prefix + "/setup", prefix + "/users",
     prefix + "/user-management/users", "/owner/setup", "/user-management/setup", "/setup", "/users",
     "/user-management/users", "/api/v1/owner/setup", "/api/v1/setup", "/api/v1/user-management/setup"]
  }

  /** The de-duplicated fallback paths are distinct, hold every candidate path, keep the
      order of first occurrences and are at most thirteen. */
  lemma FallbackPathsProperties(prefix: string)
    ensures var c := FallbackCandidates(prefix);
      var p := Dedup(c);
      && NoDuplicates(p)
      && (forall x :: x in p <==> x in c)
      && (forall i, j :: 0 <= i < j < |p| ==> FirstIndex(c, p[i]) < FirstIndex(c, p[j]))
      && |p| <= 13
  {
    var c := FallbackCandidates(prefix);
    DedupNoDuplicates(c);
    DedupMembers(c);
    DedupOrder(c);
    DedupLength(c);
  }

  lemma {:induction false} DedupLength<T>(s: seq<T>)
    ensures |Dedup(s)| <= |s|
    decreases |s|
  {
    if |s| > 0 {
      DedupLength(s[..|s| - 1]);
    }
  }

  /** A reply in the fallback loop: a created owner ends with 0 and any other reply moves
      on; an HTTP error ends with 0 when it says the owner exists, moves on for 401, 403
      and 404, and ends with 1 otherwise; an error that is not HTTP ends with 1. */
  function FallbackStep(r: Reply): (s: Step)
    ensures !s.ToHandler?
    ensures s.Done? ==> s.code == 0 || s.code == 1
    ensures r.Reply? ==> (s == Done(0) <==> r.status in {200, 201})
    ensures r.Reply? && r.status !in {200, 201} ==> s == Next
    ensures r.HttpError? ==> (s == Done(0) <==> (r.code == 400 || r.code == 409) && SaysInitialized(r.detail))
    ensures r.HttpError? && r.code in {401, 403, 404} ==> s == Next
    ensures r.HttpError? && r.code !in {401, 403, 404} ==> s.Done?
    ensures r.Broken? ==> s == Done(1)
  {
    match r
    case Reply(status, _) => if status == 200 || status == 201 then Done(0) else Next
    case HttpError(code, detail) =>
      if (code == 400 || code == 409) && SaysInitialized(detail) then Done(0)
      else if code == 401 || code == 403 then Next
      else if code != 404 then Done(1)
      else Next
    case Broken => Done(1)
  }

  /** The fallback loop: the exit code of the first deciding reply, None when every path
      moved on; and the paths posted to. */
  function FallbackRun(base: string, paths: seq<string>, post: string -> Reply): (r: (Option<int>, seq<string>))
    ensures |r.1| <= |paths|
    ensures r.0.Some? ==> r.0.value == 0 || r.0.value == 1
    ensures r.0.None? ==> r.1 == paths
    decreases |paths|
  {
    if paths == [] then (None, [])
    else
      var step := FallbackStep(post(base + paths[0]));
      if step.Done? then (Some(step.code), [paths[0]])
      else var (v, tried) := FallbackRun(base, paths[1..], post); (v, [paths[0]] + tried)
  }

  /** 401, 403 and 404 move on to the next path. */
  lemma FallbackSkips(base: string, p: string, rest: seq<string>, post: string -> Reply)
    requires post(base + p).HttpError? && post(base + p).code in {401, 403, 404}
    ensures FallbackRun(base, [p] + rest, post) == (FallbackRun(base, rest, post).0, [p] + FallbackRun(base, rest, post).1)
  {
    assert ([p] + rest)[1..] == rest;
  }

  /** A 400 or 409 saying the owner exists ends the loop with 0; any other HTTP error
      code ends it with 1. */
  lemma FallbackDecides(base: string, p: string, rest: seq<string>, post: string -> Reply)
    requires post(base + p).HttpError? && post(base + p).code !in {401, 403, 404}
    ensures var e := post(base + p);
      FallbackRun(base, [p] + rest, post).0 ==
        Some(if (e.code == 400 || e.code == 409) && SaysInitialized(e.detail) then 0 else 1)
  {
  }

  /** A created owner ends the loop with 0 after that one path; an error that is not
      HTTP ends it with 1; a reply with any other status moves on to the next path. */
  lemma FallbackReplies(base: string, p: string, rest: seq<string>, post: string -> Reply)
    requires !post(base + p).HttpError?
    ensures var r := post(base + p);
      && (r.Reply? && r.status in {200, 201} ==> FallbackRun(base, [p] + rest, post) == (Some(0), [p]))
      && (r.Broken? ==> FallbackRun(base, [p] + rest, post) == (Some(1), [p]))
      && (r.Reply? && r.status !in {200, 201} ==>
            FallbackRun(base, [p] + rest, post) == (FallbackRun(base, rest, post).0, [p] + FallbackRun(base, rest, post).1))
  {
    assert ([p] + rest)[1..] == rest;
  }

  /** One path of the fallback loop that moves on. */
  lemma FallbackRunStep(base: string, paths: seq<string>, i: nat, post: string -> Reply)
    requires i < |paths| && !FallbackStep(post(base + paths[i])).Done?
    ensures FallbackRun(base, paths[i..], post)
         == (FallbackRun(base, paths[i + 1..], post).0, [paths[i]] + FallbackRun(base, paths[i + 1..], post).1)
  {
    assert paths[i..][0] == paths[i] && paths[i..][1..] == paths[i + 1..];
  }

  /** What the fallback loop keeps: the paths before i were posted to and moved on. */
  predicate FallbackSoFar(base: string, paths: seq<string>, i: nat, tried: seq<string>, post: string -> Reply)
    requires i <= |paths|
  {
    && tried == paths[..i]
    && FallbackRun(base, paths, post).0 == FallbackRun(base, paths[i..], post).0
    && FallbackRun(base, paths, post).1 == tried + FallbackRun(base, paths[i..], post).1
  }

  lemma FallbackStart(base: string, paths: seq<string>, post: string -> Reply)
    ensures FallbackSoFar(base, paths, 0, [], post)
  {
    assert paths[0..] == paths;
  }

  /** A path whose reply moves on keeps the loop's invariant. */
  lemma FallbackAdvance(base: string, paths: seq<string>, i: nat, tried: seq<string>, post: string -> Reply)
    requires i < |paths| && !FallbackStep(post(base + paths[i])).Done?
    requires FallbackSoFar(base, paths, i, tried, post)
    ensures FallbackSoFar(base, paths, i + 1, tried + [paths[i]], post)
  {
    FallbackRunStep(base, paths, i, post);
    assert paths[..i + 1] == paths[..i] + [paths[i]];
    var rest := FallbackRun(base, paths[i + 1..], post).1;
    assert tried + ([paths[i]] + rest) == (tried + [paths[i]]) + rest;
  }

  /** A path whose reply decides ends the loop with that reply's code. */
  lemma FallbackDone(base: string, paths: seq<string>, i: nat, tried: seq<string>, post: string -> Reply)
    requires i < |paths| && FallbackStep(post(base + paths[i])).Done?
    requires FallbackSoFar(base, paths, i, tried, post)
    ensures FallbackRun(base, paths, post) == (Some(FallbackStep(post(base + paths[i])).code), tried + [paths[i]])
  {
    assert paths[i..][0] == paths[i];
  }

  /** Every path moved on: no verdict, and all of them were posted to. */
  lemma FallbackExhausted(base: string, paths: seq<string>, tried: seq<string>, post: string -> Reply)
    requires FallbackSoFar(base, paths, |paths|, tried, post)
    ensures FallbackRun(base, paths, post) == (None, tried)
  {
    assert paths[|paths|..] == [];
    assert tried + [] == tried;
  }

  /** The fallback loop over the paths. */
  method FallbackLoop(base: string, paths: seq<string>, post: string -> Reply)
    returns (verdict: Option<int>, tried: seq<string>)
    ensures (verdict, tried) == FallbackRun(base, paths, post)
  {
    tried := [];
    var i := 0;
    FallbackStart(base, paths, post);
    while i < |paths|
      invariant 0 <= i <= |paths|
      invariant FallbackSoFar(base, paths, i, tried, post)
    {
      var s := FallbackStep(post(base + paths[i]));
      if s.Done? {
        FallbackDone(base, paths, i, tried, post);
        return Some(s.code), tried + [paths[i]];
      }
      FallbackAdvance(base, paths, i, tried, post);
      tried := tried + [paths[i]];
      i := i + 1;
    }
    FallbackExhausted(base, paths, tried, post);
    return None, tried;
  }

  /** The re-check after an error: the owner is there now; a failed wait or a malformed
      `userManagement` counts as not. */
  predicate PostInit(recheck: Option<map<string, Json>>) {
    recheck.Some? && OwnerSetUp(Unwrap(recheck.value)) == Some(true)
  }

  /** The exit code of the setup phase and the URLs posted to. */
  function SetupOutcome(base: string, prefix: string, post: string -> Reply,
                        recheck: Option<map<string, Json>>): (int, seq<string>)
  {
    var urls := PlainUrls(base, prefix);
    var (step, n) := Plain(urls, post);
    var plainPosted := urls[..n];
    match step
    case Done(c) => (c, plainPosted)
    case Next => (1, plainPosted)
    case ToHandler(code, detail) =>
      if code == 400 || code == 409 then
        (if PostInit(recheck) || SaysInitialized(detail) then 0 else 1, plainPosted)
      else if code == 401 || code == 403 || code == 404 then
        var paths := Dedup(FallbackCandidates(prefix));
        var (v, tried) := FallbackRun(base, paths, post);
        var fallbackPosted := seq(|tried|, i requires 0 <= i < |tried| => base + tried[i]);
        (match v case Some(c) => c case None => if PostInit(recheck) then 0 else 1, plainPosted + fallbackPosted)
      else (1, plainPosted)
  }

  /** The handler of `urlopen`'s `HTTPError`, which every status of 400 and above raises:
      when the first plain attempt that does not move on raises `HTTPError(c, d)`, a 400 or
      409 succeeds exactly when the re-check finds the owner or d says it exists; 401, 403
      and 404 go to the fallback loop and its verdict, or to the re-check when every path
      moves on; any other code fails. */
  lemma HttpErrorHandled(base: string, prefix: string, post: string -> Reply,
                         recheck: Option<map<string, Json>>, c: int, d: string)
    requires Plain(PlainUrls(base, prefix), post).0 == ToHandler(c, d)
    ensures var n := Plain(PlainUrls(base, prefix), post).1;
      n >= 1 && post(PlainUrls(base, prefix)[n - 1]) == HttpError(c, d)
    ensures var out := SetupOutcome(base, prefix, post, recheck).0;
      && ((c == 400 || c == 409) ==> (out == 0 <==> PostInit(recheck) || SaysInitialized(d)) && out in {0, 1})
      && ((c == 401 || c == 403 || c == 404) ==>
            out == match FallbackRun(base, Dedup(FallbackCandidates(prefix)), post).0
                   case Some(v) => v
                   case None => if PostInit(recheck) then 0 else 1)
      && (c !in {400, 409, 401, 403, 404} ==> out == 1)
  {
  }

  /** The setup phase ends with 0 or 1. */
  lemma SetupExitCodes(base: string, prefix: string, post: string -> Reply, recheck: Option<map<string, Json>>)
    ensures SetupOutcome(base, prefix, post, recheck).0 in {0, 1}
  {
  }

  /** A created owner at the first endpoint ends with 0 after one POST. */
  lemma FirstEndpointCreates(base: string, prefix: string, post: string -> Reply, recheck: Option<map<string, Json>>)
    requires post(PlainUrls(base, prefix)[0]).Reply? && post(PlainUrls(base, prefix)[0]).status in {200, 201}
    ensures SetupOutcome(base, prefix, post, recheck) == (0, [PlainUrls(base, prefix)[0]])
  {
    assert PlainUrls(base, prefix)[..1] == [PlainUrls(base, prefix)[0]];
  }

  /** When all three plain attempts fail without raising, the exit code is 1 after three POSTs. */
  lemma PlainAttemptsFail(base: string, prefix: string, post: string -> Reply, recheck: Option<map<string, Json>>)
    requires forall i :: 0 <= i < 3 ==> PlainFailure(post(PlainUrls(base, prefix)[i]))
    ensures SetupOutcome(base, prefix, post, recheck) == (1, PlainUrls(base, prefix))
  {
    var urls := PlainUrls(base, prefix);
    PlainFailureMovesOn(post(urls[0]));
    PlainFailureMovesOn(post(urls[1]));
    PlainFailureMovesOn(post(urls[2]));
    assert Plain(urls[2..], post) == (Done(1), 1) by {
      assert urls[2..][0] == urls[2] && urls[2..][1..] == [];
    }
    assert Plain(urls[1..], post) == (Done(1), 2) by {
      assert urls[1..][0] == urls[1] && urls[1..][1..] == urls[2..];
    }
    assert urls[..3] == urls;
  }

  // ---------------------------------------------------------------------------
  // main
  // ---------------------------------------------------------------------------

  /** How `main` ends: with an exit code, or by an exception raised outside its handlers. */
  datatype Outcome = Exit(code: int) | Raises

  /** `main`. ready says which base URLs answer within the wait; settings is what the
      second wait reads (None when it fails); post gives the reply to a POST to a URL;
      recheck is what a re-check of the settings reads. The URLs posted to are returned. */
  method Run(env: map<string, string>, ready: string -> bool, settings: Option<map<string, Json>>,
             post: string -> Reply, recheck: Option<map<string, Json>>)
    returns (result: Outcome, posted: seq<string>)
    ensures var base := FirstReady(CandidateUrls(env), ready);
      && (base == [] ==> result == Exit(1) && posted == [])
      && (base != [] && settings.None? ==> result == Exit(1) && posted == [])
      && (base != [] && settings.Some? ==>
          var s := Unwrap(settings.value);
          && (OwnerSetUp(s).None? ==> result == Raises && posted == [])
          && (OwnerSetUp(s) == Some(true) ==> result == Exit(0) && posted == [])
          && (OwnerSetUp(s) == Some(false) && RestPrefix(s).None? ==> result == Raises && posted == [])
          && (OwnerSetUp(s) == Some(false) && RestPrefix(s).Some? ==>
              var (code, urls) := SetupOutcome(base, RestPrefix(s).value, post, recheck);
              result == Exit(code) && posted == urls))
  {
    posted := [];
    var candidates := CandidateBaseUrls(env);
    var baseUrl := SelectBaseUrl(candidates, ready);
    if baseUrl == [] {
      return Exit(1), posted;
    }
    if settings.None? {
      return Exit(1), posted;
    }
    var s := Unwrap(settings.value);
    var owner := OwnerSetUp(s);
    if owner.None? {
      return Raises, posted;
    }
    if owner.value {
      return Exit(0), posted;
    }
    var prefix := RestPrefix(s);
    if prefix.None? {
      return Raises, posted;
    }
    var code;
    code, posted := Setup(baseUrl, prefix.value, post, recheck);
    result := Exit(code);
  }

  /** The setup phase: the plain attempts, then the handler of an `HTTPError`. */
  method Setup(base: string, prefix: string, post: string -> Reply, recheck: Option<map<string, Json>>)
    returns (code: int, posted: seq<string>)
    ensures (code, posted) == SetupOutcome(base, prefix, post, recheck)
  {
    var urls := PlainUrls(base, prefix);
    var step, n := PlainAttempts(urls, post);
    posted := urls[..n];
    match step
    case Done(c) =>
      code := c;
    case Next =>
      code := 1;
    case ToHandler(errCode, detail) =>
      if errCode == 400 || errCode == 409 {
        code := if PostInit(recheck) || SaysInitialized(detail) then 0 else 1;
      } else if errCode == 401 || errCode == 403 || errCode == 404 {
        var paths := DedupInOrder(FallbackCandidates(prefix));
        var verdict, tried := FallbackLoop(base, paths, post);
        posted := posted + seq(|tried|, i requires 0 <= i < |tried| => base + tried[i]);
        code := if verdict.Some? then verdict.value else if PostInit(recheck) then 0 else 1;
      } else {
        code := 1;
      }
  }
}
