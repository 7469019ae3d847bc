/** The Odoo post-init bootstrap: it normalises the configured language and group
    tokens, maps group shorthands to xmlids, activates languages, validates an
    enterprise database on the prod tier and creates or updates the default user. */
module OdooBootstrap {
  import opened Common
  import opened Text
  import opened OdooRecords

  // ---------------------------------------------------------------------------
  // tokens
  // ---------------------------------------------------------------------------

  /** A configured value: unset, one comma- or semicolon-separated string, or a list. */
  datatype TokenSource = Absent | TextVal(s: string) | ListVal(items: seq<string>)

  /** `normalize_tokens`: what the configured value stands for. */
  function TokensOf(val: TokenSource): seq<string> {
    match val
    case Absent => []
    case TextVal(s) => if s == [] then [] else KeptTokens(Split(ReplaceChar(s, ';', ','), ','))
    case ListVal(xs) => KeptTokens(xs)
  }

  /** `normalize_tokens`: the string branch is a loop, the list branch a comprehension. */
  method NormalizeTokens(val: TokenSource) returns (tokens: seq<string>)
    ensures tokens == TokensOf(val)
  {
    match val
    case Absent =>
      tokens := [];
    case ListVal(xs) =>
      tokens := KeptTokens(xs);
    case TextVal(raw) =>
      if raw == [] {
        return [];
      }
      var chunks := Split(ReplaceChar(raw, ';', ','), ',');
      tokens := [];
      for i := 0 to |chunks|
        invariant tokens == KeptTokens(chunks[..i])
      {
        KeptTokensStep(chunks, i);
        var c := Trim(chunks[i]);
        if c != [] {
          tokens := tokens + [c];
        }
      }
      assert chunks[..|chunks|] == chunks;
  }

  /** A token as the normaliser leaves it: not blank, and already trimmed. */
  predicate IsToken(t: string) {
    t != [] && Trim(t) == t
  }

  /** Every normalised token is trimmed and non-empty. */
  lemma TokensAreTrimmed(val: TokenSource)
    ensures forall i :: 0 <= i < |TokensOf(val)| ==> IsToken(TokensOf(val)[i])
  {
    var xs := match val
      case Absent => []
      case TextVal(s) => Split(ReplaceChar(s, ';', ','), ',')
      case ListVal(ys) => ys;
    forall i | 0 <= i < |KeptTokens(xs)|
      ensures IsToken(KeptTokens(xs)[i])
    {
      var t := KeptTokens(xs)[i];
      assert t in Trims(xs);
      var k :| 0 <= k < |xs| && Trims(xs)[k] == t;
      StripIdempotent(xs[k], Whitespace);
    }
  }

  lemma KeptTokensOfTokens(ts: seq<string>)
    requires forall i :: 0 <= i < |ts| ==> IsToken(ts[i])
    ensures KeptTokens(ts) == ts
  {
    assert Trims(ts) == ts;
    FilterAllTrue(ts, NonEmpty);
  }

  /** Normalising a normalised list changes nothing. */
  lemma NormalizeIdempotent(val: TokenSource)
    ensures TokensOf(ListVal(TokensOf(val))) == TokensOf(val)
  {
    TokensAreTrimmed(val);
    KeptTokensOfTokens(TokensOf(val));
  }

  /** Tokens written out as `a,b,c` read back as the same tokens. */
  lemma TokensOfCommaJoined(ts: seq<string>)
    requires forall i :: 0 <= i < |ts| ==> IsToken(ts[i]) && ',' !in ts[i] && ';' !in ts[i]
    ensures TokensOf(TextVal(Join(",", ts))) == ts
  {
    if ts != [] {
      JoinNonEmpty(",", ts);
      CommaJoinedChunks(ts);
      KeptTokensOfTokens(ts);
    }
  }

  lemma CommaJoinedChunks(ts: seq<string>)
    requires ts != []
    requires forall i :: 0 <= i < |ts| ==> ',' !in ts[i] && ';' !in ts[i]
    ensures Split(ReplaceChar(Join(",", ts), ';', ','), ',') == ts
  {
    NotInJoin(",", ts, ';');
    ReplaceAbsent(Join(",", ts), ';', ',');
    JoinSplit(ts, ',');
  }

  lemma JoinNonEmpty(sep: string, ts: seq<string>)
    requires ts != [] && ts[0] != []
    ensures Join(sep, ts) != []
  {
    if |ts| > 1 {
      assert Join(sep, ts)[0] == ts[0][0];
    }
  }

  // ---------------------------------------------------------------------------
  // groups
  // ---------------------------------------------------------------------------

  /** The shorthands a group token may use, with the xmlid each stands for. */
  const Shorthands: map<string, string> := map[
    "internal" := "base.group_user",
    "portal" := "base.group_portal",
    "public" := "base.group_public",
    "admin" := "base.group_system",
    "settings" := "base.group_system",
    "manager" := "base.group_system"]

  /** The xmlids a token stands for: itself when it has a `.`, otherwise its shorthand
      looked up without regard to case, and nothing for an unknown shorthand. */
  function TokenXmlids(token: string): seq<string> {
    if '.' in token then [token]
    else if Lower(token) in Shorthands then [Shorthands[Lower(token)]]
    else []
  }

  /** All xmlids the tokens stand for, token by token. */
  function XmlidsOf(tokens: seq<string>): seq<string>
    decreases |tokens|
  {
    if |tokens| == 0 then []
    else XmlidsOf(tokens[..|tokens| - 1]) + TokenXmlids(tokens[|tokens| - 1])
  }

  lemma {:induction false} GroupIdsConcat(refs: Refs, a: seq<string>, b: seq<string>)
    ensures GroupIds(refs, a + b) == GroupIds(refs, a) + GroupIds(refs, b)
    decreases |b|
  {
    if |b| == 0 {
      assert a + b == a;
    } else {
      var b0 := b[..|b| - 1];
      GroupIdsConcat(refs, a, b0);
      assert (a + b)[..|a + b| - 1] == a + b0;
      assert (a + b)[|a + b| - 1] == b[|b| - 1];
    }
  }

  lemma XmlidsOfStep(refs: Refs, tokens: seq<string>, i: nat)
    requires i < |tokens|
    ensures GroupIds(refs, XmlidsOf(tokens[..i + 1]))
         == GroupIds(refs, XmlidsOf(tokens[..i])) + GroupIds(refs, TokenXmlids(tokens[i]))
  {
    assert tokens[..i + 1][..i] == tokens[..i];
    assert XmlidsOf(tokens[..i + 1]) == XmlidsOf(tokens[..i]) + TokenXmlids(tokens[i]);
    GroupIdsConcat(refs, XmlidsOf(tokens[..i]), TokenXmlids(tokens[i]));
  }

  /** The inner loop of `resolve_groups`: the ids of the groups the xmlids name, appended. */
  method AppendGroupIds(refs: Refs, xmlids: seq<string>, groupIds: seq<nat>) returns (r: seq<nat>)
    ensures r == groupIds + GroupIds(refs, xmlids)
  {
    r := groupIds;
    for j := 0 to |xmlids|
      invariant r == groupIds + GroupIds(refs, xmlids[..j])
    {
      GroupIdsAppend(refs, xmlids[..j], xmlids[j]);
      assert xmlids[..j + 1] == xmlids[..j] + [xmlids[j]];
      var xid := xmlids[j];
      if xid in refs && refs[xid].model == "res.groups" {
        r := r + [refs[xid].id];
      }
    }
    assert xmlids[..|xmlids|] == xmlids;
  }

  /** `resolve_groups`: the group ids the tokens name, each once, in first-occurrence order. */
  method ResolveGroups(refs: Refs, tokens: seq<string>) returns (uniq: seq<nat>)
    ensures uniq == Dedup(GroupIds(refs, XmlidsOf(tokens)))
  {
    var groupIds: seq<nat> := [];
    if tokens == [] {
      return groupIds;
    }
    for i := 0 to |tokens|
      invariant groupIds == GroupIds(refs, XmlidsOf(tokens[..i]))
    {
      XmlidsOfStep(refs, tokens, i);
      groupIds := AppendGroupIds(refs, TokenXmlids(tokens[i]), groupIds);
    }
    assert tokens[..|tokens|] == tokens;
    uniq := DedupInOrder(groupIds);
  }

  lemma {:induction false} XmlidsOfMembers(tokens: seq<string>)
    ensures forall x :: x in XmlidsOf(tokens) <==>
      exists k :: 0 <= k < |tokens| && x in TokenXmlids(tokens[k])
    decreases |tokens|
  {
    if |tokens| > 0 {
      var p := tokens[..|tokens| - 1];
      var last := tokens[|tokens| - 1];
      XmlidsOfMembers(p);
      assert XmlidsOf(tokens) == XmlidsOf(p) + TokenXmlids(last);
      forall x
        ensures x in XmlidsOf(tokens) <==> exists k :: 0 <= k < |tokens| && x in TokenXmlids(tokens[k])
      {
        assert x in XmlidsOf(tokens) <==> x in XmlidsOf(p) || x in TokenXmlids(last);
        if exists k :: 0 <= k < |tokens| && x in TokenXmlids(tokens[k]) {
          var k :| 0 <= k < |tokens| && x in TokenXmlids(tokens[k]);
          if k < |p| {
            assert p[k] == tokens[k];
          }
        }
        if x in XmlidsOf(p) {
          var k :| 0 <= k < |p| && x in TokenXmlids(p[k]);
          assert tokens[k] == p[k];
        }
      }
    }
  }

  /** The resolved ids have no repeats, and an id is among them exactly when some token
      stands for an xmlid that names a group with that id. */
  lemma ResolvedGroups(refs: Refs, tokens: seq<string>)
    ensures NoDuplicates(Dedup(GroupIds(refs, XmlidsOf(tokens))))
    ensures forall g :: g in Dedup(GroupIds(refs, XmlidsOf(tokens))) <==>
      exists k, x :: 0 <= k < |tokens| && x in TokenXmlids(tokens[k]) && IsGroupRef(refs, x) && refs[x].id == g
  {
    var ids := GroupIds(refs, XmlidsOf(tokens));
    DedupNoDuplicates(ids);
    DedupMembers(ids);
    forall g
      ensures g in ids <==>
        exists k, x :: 0 <= k < |tokens| && x in TokenXmlids(tokens[k]) && IsGroupRef(refs, x) && refs[x].id == g
    {
      GroupIdOfTokens(refs, tokens, g);
    }
  }

  /** One id, both directions: it is resolved exactly when a token's xmlid names it. */
  lemma GroupIdOfTokens(refs: Refs, tokens: seq<string>, g: nat)
    ensures g in GroupIds(refs, XmlidsOf(tokens)) <==>
      exists k, x :: 0 <= k < |tokens| && x in TokenXmlids(tokens[k]) && IsGroupRef(refs, x) && refs[x].id == g
  {
    var xs := XmlidsOf(tokens);
    GroupIdsMembers(refs, xs);
    XmlidsOfMembers(tokens);
    if g in GroupIds(refs, xs) {
      var m :| 0 <= m < |xs| && IsGroupRef(refs, xs[m]) && refs[xs[m]].id == g;
      assert xs[m] in xs;
      var k :| 0 <= k < |tokens| && xs[m] in TokenXmlids(tokens[k]);
    }
    if exists k, x :: 0 <= k < |tokens| && x in TokenXmlids(tokens[k]) && IsGroupRef(refs, x) && refs[x].id == g {
      var k, x :| 0 <= k < |tokens| && x in TokenXmlids(tokens[k]) && IsGroupRef(refs, x) && refs[x].id == g;
      assert x in xs;
      var m :| 0 <= m < |xs| && xs[m] == x;
    }
  }

  /** A shorthand is looked up without regard to case. */
  lemma ShorthandIgnoresCase(token: string)
    requires '.' !in token
    ensures TokenXmlids(Lower(token)) == TokenXmlids(token)
  {
    LowerIdempotent(token);
  }

  // ---------------------------------------------------------------------------
  // enterprise validation
  // ---------------------------------------------------------------------------

  /** One check of the enterprise validation and the problem it reports when it fails. */
  datatype Check = Check(passed: bool, problem: string)

  const MissingCode: string := "missing 'database.enterprise_code' in ir.config_parameter"
  const WebEnterpriseMissing: string := "module 'web_enterprise' is not installed"
  const EnterpriseDirMissing: string := "enterprise addons path or 'web_enterprise' directory not found"

  /** The three checks in the order they are reported: code, module, directory. */
  function EnterpriseChecks(code: string, webInstalled: bool, dirOk: bool): seq<Check> {
    [Check(Trim(code) != [], MissingCode),
     Check(webInstalled, WebEnterpriseMissing),
     Check(dirOk, EnterpriseDirMissing)]
  }

  /** The problems of the failed checks, in order. */
  function FailedProblems(checks: seq<Check>): seq<string>
    decreases |checks|
  {
    if |checks| == 0 then []
    else if checks[0].passed then FailedProblems(checks[1..])
    else [checks[0].problem] + FailedProblems(checks[1..])
  }

  /** No problem is reported exactly when every check passed; every failed check is
      reported, and nothing else is. */
  lemma {:induction false} FailedProblemsProperties(checks: seq<Check>)
    ensures FailedProblems(checks) == [] <==> forall i :: 0 <= i < |checks| ==> checks[i].passed
    ensures forall i :: 0 <= i < |checks| && !checks[i].passed ==> checks[i].problem in FailedProblems(checks)
    ensures forall p :: p in FailedProblems(checks) ==>
      exists i :: 0 <= i < |checks| && !checks[i].passed && checks[i].problem == p
    decreases |checks|
  {
    if |checks| > 0 {
      FailedProblemsProperties(checks[1..]);
      assert forall i :: 1 <= i < |checks| ==> checks[i] == checks[1..][i - 1];
      forall p | p in FailedProblems(checks)
        ensures exists i :: 0 <= i < |checks| && !checks[i].passed && checks[i].problem == p
      {
        if p in FailedProblems(checks[1..]) {
          var i :| 0 <= i < |checks[1..]| && !checks[1..][i].passed && checks[1..][i].problem == p;
          assert checks[i + 1] == checks[1..][i];
        }
      }
    }
  }

  lemma EnterpriseProblems(code: string, webInstalled: bool, dirOk: bool)
    ensures FailedProblems(EnterpriseChecks(code, webInstalled, dirOk))
         == (if Trim(code) == [] then [MissingCode] else [])
          + (if !webInstalled then [WebEnterpriseMissing] else [])
          + (if !dirOk then [EnterpriseDirMissing] else [])
  {
    FailedOfThree(Check(Trim(code) != [], MissingCode), Check(webInstalled, WebEnterpriseMissing),
                  Check(dirOk, EnterpriseDirMissing));
  }

  /** Three checks report their problems in order, each only when it failed. */
  lemma FailedOfThree(x: Check, y: Check, z: Check)
    ensures FailedProblems([x, y, z])
         == (if x.passed then [] else [x.problem])
          + (if y.passed then [] else [y.problem])
          + (if z.passed then [] else [z.problem])
  {
    var s3 := [z];
    var s2 := [y] + s3;
    var s1 := [x] + s2;
    assert s1 == [x, y, z];
    assert s1[1..] == s2 && s2[1..] == s3 && s3[1..] == [];
    var a, b, c := (if x.passed then [] else [x.problem]), (if y.passed then [] else [y.problem]),
                   (if z.passed then [] else [z.problem]);
    assert FailedProblems(s3) == c;
    assert FailedProblems(s2) == b + c;
    assert FailedProblems(s1) == a + (b + c);
    assert a + (b + c) == a + b + c;
  }

  /** `validate_enterprise` on the facts it reads: the stored enterprise code (empty when
      unset), whether `web_enterprise` is installed and whether its directory exists. */
  method ValidateEnterprise(code: string, webInstalled: bool, dirOk: bool) returns (ok: bool, detail: string)
    ensures ok <==> Trim(code) != [] && webInstalled && dirOk
    ensures ok ==> detail == "OK"
    ensures !ok ==> detail == Join("; ", FailedProblems(EnterpriseChecks(code, webInstalled, dirOk)))
  {
    EnterpriseProblems(code, webInstalled, dirOk);
    var problems: seq<string> := [];
    if Trim(code) == [] {
      problems := problems + [MissingCode];
    }
    if !webInstalled {
      problems := problems + [WebEnterpriseMissing];
    }
    if !dirOk {
      problems := problems + [EnterpriseDirMissing];
    }
    assert problems == (if Trim(code) == [] then [MissingCode] else [])
      + (if !webInstalled then [WebEnterpriseMissing] else [])
      + (if !dirOk then [EnterpriseDirMissing] else []);
    if problems != [] {
      return false, Join("; ", problems);
    }
    return true, "OK";
  }

  /** Every failed check is named in the detail. */
  lemma FailedChecksReported(code: string, webInstalled: bool, dirOk: bool, i: nat)
    requires i < 3 && !EnterpriseChecks(code, webInstalled, dirOk)[i].passed
    ensures var checks := EnterpriseChecks(code, webInstalled, dirOk);
      Contains(Join("; ", FailedProblems(checks)), checks[i].problem)
  {
    var checks := EnterpriseChecks(code, webInstalled, dirOk);
    var ps := FailedProblems(checks);
    FailedProblemsProperties(checks);
    assert checks[i].problem in ps;
    var k :| 0 <= k < |ps| && ps[k] == checks[i].problem;
    JoinHasPart("; ", ps, k);
  }

  // ---------------------------------------------------------------------------
  // main
  // ---------------------------------------------------------------------------

  const DefaultDbName: string := ""
  const DefaultLogin: string := "user"
  const DefaultPassword: string := "user"
  const DefaultLangCodes: TokenSource := ListVal(["en_US", "he_IL"])
  const DefaultGroups: TokenSource := ListVal(["internal"])

  /** Python's `a or b` on strings: one of the two, the first one whenever it is not empty,
      and empty only when both are. */
  function Or(a: string, b: string): (r: string)
    ensures r == a || r == b
    ensures r != [] <==> a != [] || b != []
    ensures a != [] ==> r == a
  {
    if a != [] then a else b
  }

  /** The database: `TARGET_DB_NAME`, else the configured name, else `dev_db`. */
  function DbNameOf(env: map<string, string>): (r: string)
    ensures r != []
  {
    Or(Or(GetEnv(env, "TARGET_DB_NAME", ""), DefaultDbName), "dev_db")
  }

  /** The language codes: from `ODOO_LANGS` when it is not blank, the configured ones otherwise. */
  function LangCodesOf(env: map<string, string>): seq<string> {
    var envLangs := Trim(GetEnv(env, "ODOO_LANGS", ""));
    if envLangs != [] then TokensOf(TextVal(envLangs)) else TokensOf(DefaultLangCodes)
  }

  /** The group tokens: from `USER_GROUPS` when it is set and not empty, the configured ones otherwise. */
  function GroupTokensOf(env: map<string, string>): seq<string> {
    var g := GetEnv(env, "USER_GROUPS", "");
    TokensOf(if g != [] then TextVal(g) else DefaultGroups)
  }

  /** The values of the default user. */
  function BootstrapUserVals(login: string, password: string, groupIds: seq<nat>): (v: UserVals)
    ensures v.name == Capitalize(login) && v.login == login && v.password == Some(password)
    ensures v.groups.Some? <==> groupIds != []
    ensures v.groups.Some? ==> v.groups.value == groupIds
  {
    UserVals(Capitalize(login), login, Some(password), if groupIds != [] then Some(groupIds) else None)
  }

  /** The default user after `main` writes or creates it: the only one with the login,
      named after the capitalized login, with the password, and with exactly the resolved
      groups whenever there are any; without groups an existing user keeps its own. */
  lemma BootstrapUserWritten(users: seq<User>, login: string, password: string, groupIds: seq<nat>)
    requires UniqueLogins(users)
    ensures var r := Upserted(users, BootstrapUserVals(login, password, groupIds));
      && UniqueLogins(r)
      && FindLogin(r, login).Some?
      && var u := r[FindLogin(r, login).value];
      && u.name == Capitalize(login) && u.password == Some(password)
      && (groupIds != [] ==> u.groups.Some? && forall g :: g in u.groups.value <==> g in groupIds)
    ensures var r := Upserted(users, BootstrapUserVals(login, password, groupIds));
      groupIds == [] && FindLogin(users, login).Some? ==>
        r[FindLogin(users, login).value].groups == users[FindLogin(users, login).value].groups
  {
    var vals := BootstrapUserVals(login, password, groupIds);
    UpsertedProperties(users, vals);
    UpsertedCarries(users, vals);
  }

  /** The languages activated: the codes whose activation did not raise, in order. */
  method ActivateLanguages(codes: seq<string>, failing: set<string>) returns (activated: seq<string>)
    ensures activated == Filter(codes, c => c !in failing)
  {
    activated := [];
    for i := 0 to |codes|
      invariant activated == Filter(codes[..i], c => c !in failing)
    {
      assert codes[..i + 1] == codes[..i] + [codes[i]];
      FilterAppend(codes[..i], codes[i], c => c !in failing);
      if codes[i] !in failing {
        activated := activated + [codes[i]];
      }
    }
    assert codes[..|codes|] == codes;
  }

  /** `main`. The database is given as: refs for `env.ref`, store for `res.users`, the codes
      whose activation raises, the enterprise facts, and whether writing the user raises. */
  method Run(env: map<string, string>, refs: Refs, store: UserStore, failingLangs: set<string>,
              enterpriseCode: string, webInstalled: bool, dirOk: bool, userWriteFails: bool)
    returns (exit: int, db: string, activated: seq<string>, validation: Option<(bool, string)>)
    requires store.Valid()
    modifies store
    ensures store.Valid()
    ensures db == DbNameOf(env)
    ensures activated == Filter(LangCodesOf(env), c => c !in failingLangs)
    ensures GetEnv(env, "TARGET_TIER", "") == "prod" <==> validation.Some?
    ensures validation.Some? ==> (validation.value.0 <==> Trim(enterpriseCode) != [] && webInstalled && dirOk)
    ensures var login := Or(GetEnv(env, "USER_LOGIN", ""), DefaultLogin);
      var password := Or(GetEnv(env, "USER_PASSWORD", ""), DefaultPassword);
      var vals := BootstrapUserVals(login, password, Dedup(GroupIds(refs, XmlidsOf(GroupTokensOf(env)))));
      && (userWriteFails ==> exit == 1 && store.users == old(store.users))
      && (!userWriteFails ==> exit == 0 && store.users == Upserted(old(store.users), vals))
    ensures var login := Or(GetEnv(env, "USER_LOGIN", ""), DefaultLogin);
      !userWriteFails ==>
        && FindLogin(store.users, login).Some?
        && store.users[FindLogin(store.users, login).value].name == Capitalize(login)
        && store.users[FindLogin(store.users, login).value].password
           == Some(Or(GetEnv(env, "USER_PASSWORD", ""), DefaultPassword))
  {
    db := Or(Or(GetEnv(env, "TARGET_DB_NAME", ""), DefaultDbName), "dev_db");
    var tier := GetEnv(env, "TARGET_TIER", "");
    activated := LanguagesStep(env, failingLangs);
    var values := UserValsStep(env, refs);
    validation := ValidationStep(tier, enterpriseCode, webInstalled, dirOk);
    if userWriteFails {
      return 1, db, activated, validation;
    }
    BootstrapUserWritten(store.users, values.login, values.password.value,
                         Dedup(GroupIds(refs, XmlidsOf(GroupTokensOf(env)))));
    var _ := store.Upsert(values);
    exit := 0;
  }

  /** The language step of `main`: normalize the codes, then activate them. */
  method LanguagesStep(env: map<string, string>, failingLangs: set<string>) returns (activated: seq<string>)
    ensures activated == Filter(LangCodesOf(env), c => c !in failingLangs)
  {
    var envLangs := Trim(GetEnv(env, "ODOO_LANGS", ""));
    var langCodes;
    if envLangs != [] {
      langCodes := NormalizeTokens(TextVal(envLangs));
    } else {
      langCodes := NormalizeTokens(DefaultLangCodes);
    }
    activated := [];
    if langCodes != [] {
      activated := ActivateLanguages(langCodes, failingLangs);
    }
  }

  /** The values `main` writes to the default user, its groups resolved. */
  method UserValsStep(env: map<string, string>, refs: Refs) returns (values: UserVals)
    ensures var login := Or(GetEnv(env, "USER_LOGIN", ""), DefaultLogin);
      var password := Or(GetEnv(env, "USER_PASSWORD", ""), DefaultPassword);
      values == BootstrapUserVals(login, password, Dedup(GroupIds(refs, XmlidsOf(GroupTokensOf(env)))))
  {
    var login := Or(GetEnv(env, "USER_LOGIN", ""), DefaultLogin);
    var password := Or(GetEnv(env, "USER_PASSWORD", ""), DefaultPassword);
    var groupsEnv := GetEnv(env, "USER_GROUPS", "");
    var groupsTokens := NormalizeTokens(if groupsEnv != [] then TextVal(groupsEnv) else DefaultGroups);
    var groupIds := ResolveGroups(refs, groupsTokens);
    values := BootstrapUserVals(login, password, groupIds);
  }

  /** The enterprise validation, run only on the `prod` tier. */
  method ValidationStep(tier: string, enterpriseCode: string, webInstalled: bool, dirOk: bool)
    returns (validation: Option<(bool, string)>)
    ensures tier == "prod" <==> validation.Some?
    ensures validation.Some? ==> (validation.value.0 <==> Trim(enterpriseCode) != [] && webInstalled && dirOk)
  {
    validation := None;
    if tier == "prod" {
      var ok, detail := ValidateEnterprise(enterpriseCode, webInstalled, dirOk);
      validation := Some((ok, detail));
    }
  }
}
