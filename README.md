# Helpdesk ticket model and post-init hooks, in Dafny

This project models the core of the `enterprise2` deployment: the customised
`helpdesk.ticket` model of the `helpdesk_custom` Odoo addon, and the four
post-init hooks that prepare a freshly started environment:

- `install_modules.py` reads `install-modules.txt`, keeps the modules the
  database does not already have, and runs `odoo -i` for them.
- the Odoo `bootstrap.py` activates languages, validates an enterprise database
  on the `prod` tier, and creates or updates the default user with its groups.
- `connect-odoo.py` records the n8n base URL in `ir.config_parameter`, ensures a
  technical `n8n` user, and installs, reuses or creates its API key, keeping a
  copy in a secrets file.
- the n8n `bootstrap.py` finds a base URL that answers, reads the n8n settings
  and, when no instance owner exists yet, sets one up through the setup
  endpoints the various n8n versions expose.

Each script is one module (`InstallModules`, `OdooBootstrap`, `ConnectOdoo`,
`N8nBootstrap`) and the addon is `HelpdeskTicket`. `OdooRecords` holds what two
scripts share (`env.ref` and the `res.users` upsert), `Text` holds Python's
string operations (`strip`, `split`, `join`, `lower`, `int()`, `sorted`) and
`Common` holds `Option`, order-preserving de-duplication and filtering.

Computation that the source writes as expressions is modelled as functions.
Its loops are methods with invariants, proved equal to those functions.
Objects the source updates in place are classes:
- the `res.users` table (`OdooRecords.UserStore`);
- the `ir.config_parameter` table (`ConnectOdoo.ParamStore`);
- the `res.users.apikey` table (`ConnectOdoo.ApiKeyStore`);
- the form's ticket record (`HelpdeskTicket.Ticket`).

Everything the scripts get from outside becomes a parameter of the model:
- the environment variables;
- the files read;
- the database contents;
- the HTTP replies;
- which URLs answer;
- which calls raise.

Where the specification and the code differ, the model follows the code:
- The SLA clean-up after `write` unlinks a ticket's statuses whose SLA no
  longer applies. It does so whether or not a status has been reached; the
  specification says reached statuses are kept.
- `create` reduces `sla_ids` to one id taken from a Python set. That is some
  member of the set, not necessarily the first command's id.
- `_ensure_param` compares the stored value after stripping it, but stores
  the value as given. A value with surrounding whitespace is reported as
  changed on every run (`ConnectOdoo.EnsureParamPaddedValue`).
- In connect-odoo's `_resolve_db_name`, an empty `PGDATABASE` falls through
  to `POSTGRES_DB`. A `PGDATABASE` of blanks is truthy, so it hides
  `POSTGRES_DB` and resolves to the empty name.

## Model

| member | source | states |
|---|---|---|
| InstallModules.FileLines | deploy/hooks/odoo/shukcity/dev/post-init/install_modules.py:12-13 | the lines a file is read as are never empty |
| InstallModules.StripComments | deploy/hooks/odoo/shukcity/dev/post-init/install_modules.py:14-16 | one result per line; a line without `#` is kept whole, and any other line is cut exactly at its first `#` |
| InstallModules.ReadModulesList | deploy/hooks/odoo/shukcity/dev/post-init/install_modules.py:8-34 | the reader's loops compute exactly the requested-module list `ModulesOf` |
| InstallModules.UncommentedLines | deploy/hooks/odoo/shukcity/dev/post-init/install_modules.py:13-16 | the line loop cuts every line at its first `#` |
| InstallModules.ModuleChunks | deploy/hooks/odoo/shukcity/dev/post-init/install_modules.py:19-26 | the chunk loop keeps exactly the well-formed module names, in order |
| InstallModules.ModulesOfProperties | deploy/hooks/odoo/shukcity/dev/post-init/install_modules.py:8-34 | the modules read are distinct and well formed; a name is read exactly when it is a well-formed chunk of the uncommented text; they come in the order of their first occurrence in the file |
| InstallModules.ChunksOfLine | deploy/hooks/odoo/shukcity/dev/post-init/install_modules.py:19 | a line without comment or `;` is cut into its comma- and blank-separated words |
| InstallModules.ChunksOfCommaJoined | deploy/hooks/odoo/shukcity/dev/post-init/install_modules.py:19 | the chunks of a one-line `a,b,c` file are a, b and c |
| InstallModules.ReadCommaJoined | deploy/hooks/odoo/shukcity/dev/post-init/install_modules.py:8-34 | round trip: distinct, well-formed names written as `a,b,c` read back as the same list |
| InstallModules.MixedSeparators | deploy/hooks/odoo/shukcity/dev/post-init/install_modules.py:8-34 | a file mixing a comma, a blank, a `#` comment, a line break and a `;` between three distinct names reads back as exactly those three names, in order |
| InstallModules.MissingFile | deploy/hooks/odoo/shukcity/dev/post-init/install_modules.py:9-10 | a missing file requests no module |
| InstallModules.LevelColor | deploy/hooks/odoo/shukcity/dev/post-init/install_modules.py:44-51 | red exactly for ERROR, yellow exactly for WARNING or WARN, green exactly otherwise, case-insensitively |
| InstallModules.ColorizeToken | deploy/hooks/odoo/shukcity/dev/post-init/install_modules.py:44-52 | the token is kept intact between a colour code plus bold and a reset; the colour is red exactly for ERROR, yellow exactly for WARNING or WARN, green exactly for any other level |
| InstallModules.FirstAlternative | deploy/hooks/odoo/shukcity/dev/post-init/install_modules.py:68 | the alternation yields the earliest listed alternative from k on that stands at the index as a whole word, with none of the earlier ones standing there; none exactly when no alternative does |
| InstallModules.SeverityAt | deploy/hooks/odoo/shukcity/dev/post-init/install_modules.py:68 | the word matched at an index is a severity word standing there as a whole word; there is no match exactly when no severity word stands there |
| InstallModules.LeftmostSeverity | deploy/hooks/odoo/shukcity/dev/post-init/install_modules.py:68-75 | the index found is a match with no match before it; none means no match at all |
| InstallModules.LeftmostMatch | deploy/hooks/odoo/shukcity/dev/post-init/install_modules.py:68-75 | the index found is the first from which one of the alternatives stands as a whole word; none when there is no such index |
| InstallModules.ColorizeSeverity | deploy/hooks/odoo/shukcity/dev/post-init/install_modules.py:67-75 | a line with no whole-word severity is returned unchanged |
| InstallModules.PaintAt | deploy/hooks/odoo/shukcity/dev/post-init/install_modules.py:70-75 | the text before the match is kept and the match is replaced by its paint; the text after the match is kept, and so the length grows by the paint's overhead |
| InstallModules.ColorizeFirstOnly | deploy/hooks/odoo/shukcity/dev/post-init/install_modules.py:67-75 | only the leftmost whole-word match is painted (`count=1`) |
| InstallModules.NoSeverityUnchanged | deploy/hooks/odoo/shukcity/dev/post-init/install_modules.py:67-75 | when no index matches, the line is left alone |
| InstallModules.WarningsIsNotAWord | deploy/hooks/odoo/shukcity/dev/post-init/install_modules.py:68 | `WARNINGS` is not a match, since `\b` needs a word end |
| InstallModules.CriticalIsGreen | deploy/hooks/odoo/shukcity/dev/post-init/install_modules.py:70-73 | CRITICAL is painted green, like INFO |
| InstallModules.FilterInstallable | deploy/hooks/odoo/shukcity/dev/post-init/install_modules.py:123-134 | the loop keeps, in list order, the modules the database knows that are neither installed nor queued |
| InstallModules.Run | deploy/hooks/odoo/shukcity/dev/post-init/install_modules.py:99-154 | no modules gives exit 0 without a command, and no database name gives exit 2; nothing left to install gives exit 0 without a command; otherwise the `odoo -i` command names the sorted remaining modules, and exit is 4 exactly when the command fails |
| InstallModules.CommandModules | deploy/hooks/odoo/shukcity/dev/post-init/install_modules.py:141 | the command's module list is sorted and a permutation of the modules still to install; a module is in it exactly when it was requested and is installable |
| OdooRecords.GroupIds | deploy/hooks/n8n/shukcity/dev/post-init/connect-odoo.py:50-58 | at most one id is resolved per xmlid |
| OdooRecords.GroupIdsMembers | deploy/hooks/n8n/shukcity/dev/post-init/connect-odoo.py:50-58 | an id is resolved exactly when some xmlid names a `res.groups` record with it; others are skipped |
| OdooRecords.ResolveGroupIds | deploy/hooks/n8n/shukcity/dev/post-init/connect-odoo.py:50-58 | the xmlid loop computes `GroupIds` |
| OdooRecords.FindLogin | deploy/hooks/n8n/shukcity/dev/post-init/connect-odoo.py:48 | the search finds the first user with the login; none exactly when no user has it |
| OdooRecords.UpsertedCarries | deploy/hooks/n8n/shukcity/dev/post-init/connect-odoo.py:67-71 | after the upsert the login names a user that carries the given name, login, password and groups; an existing user keeps its index and the password and groups not given, and a new user is appended with Odoo's defaults for them |
| OdooRecords.UpsertedProperties | deploy/hooks/n8n/shukcity/dev/post-init/connect-odoo.py:67-71 | logins stay unique, and exactly one user has the login; other users are unchanged and a user is added only when none had the login |
| OdooRecords.UpsertIdempotent | deploy/hooks/odoo/shukcity/dev/post-init/bootstrap.py:228-246 | re-running the same upsert changes nothing: the hooks are safe to re-run |
| OdooRecords.UserStore.constructor | deploy/hooks/n8n/shukcity/dev/post-init/connect-odoo.py:47 | the store holds the given users with unique logins |
| OdooRecords.UserStore.Upsert | deploy/hooks/n8n/shukcity/dev/post-init/connect-odoo.py:67-71 | the table becomes the upserted table; the id returned is the existing user's id, or the new user's id at the end |
| ConnectOdoo.ResolveDbNameProperties | deploy/hooks/n8n/shukcity/dev/post-init/connect-odoo.py:124-138 | the database name is stripped; it is empty exactly when no source gives a non-blank name |
| ConnectOdoo.ResolveDbName | deploy/hooks/n8n/shukcity/dev/post-init/connect-odoo.py:124-138 | a non-blank `TARGET_DB_NAME` wins, stripped; otherwise `<tier>_<env>_db` when both stripped parts are non-empty; otherwise `PGDATABASE` when it is non-empty, else `POSTGRES_DB`, stripped |
| ConnectOdoo.PathJoin | deploy/hooks/n8n/shukcity/dev/post-init/connect-odoo.py:145 | `os.path.join` of two parts: the result ends with the second part; an absolute second part replaces the first, and otherwise the first part is kept as a prefix with a `/` before the second part when the first is non-empty |
| ConnectOdoo.SecretsPathsShareTail | deploy/hooks/n8n/shukcity/dev/post-init/connect-odoo.py:141-152 | host and container secrets paths differ only in their base directory |
| ConnectOdoo.SecretsPathPlain | deploy/hooks/n8n/shukcity/dev/post-init/connect-odoo.py:141-145 | the path is `<base>/<env or default>/<tier or dev>/api-key.txt` |
| ConnectOdoo.EnsureParamEstablishes | deploy/hooks/n8n/shukcity/dev/post-init/connect-odoo.py:36-43 | afterwards the key holds the value up to whitespace and no other key changes |
| ConnectOdoo.EnsureParamIdempotent | deploy/hooks/n8n/shukcity/dev/post-init/connect-odoo.py:36-43 | for a stripped value, the second call reports no change and changes nothing |
| ConnectOdoo.EnsureParamPaddedValue | deploy/hooks/n8n/shukcity/dev/post-init/connect-odoo.py:39-43 | a value with surrounding whitespace is reported as changed on every call |
| ConnectOdoo.ParamStore.constructor | deploy/hooks/n8n/shukcity/dev/post-init/connect-odoo.py:38 | the store holds the given parameters |
| ConnectOdoo.ParamStore.EnsureParam | deploy/hooks/n8n/shukcity/dev/post-init/connect-odoo.py:36-43 | reports a change exactly when the stripped stored value differs; the table becomes `AfterEnsure` |
| ConnectOdoo.EnsureUserWithGroups | deploy/hooks/n8n/shukcity/dev/post-init/connect-odoo.py:46-71 | the table becomes the upsert of those values; the id returned is the login's user, named after the login, with the password when one is given and exactly the resolved groups when some resolved |
| ConnectOdoo.ConnectUserWritten | deploy/hooks/n8n/shukcity/dev/post-init/connect-odoo.py:46-71 | after the upsert logins stay unique and the login's user is named after it, holds the password when one is given, and has exactly the ids some xmlid names as a group when some resolved; an existing user given neither keeps its password and groups |
| ConnectOdoo.PreferredKeyInstalled | deploy/hooks/n8n/shukcity/dev/post-init/connect-odoo.py:88-96 | an installable preferred key is installed and returned as created; it is stored under the purpose, or under `purpose-file` when the purpose is refused |
| ConnectOdoo.ExistingKeyKept | deploy/hooks/n8n/shukcity/dev/post-init/connect-odoo.py:101-104 | when a key with the purpose exists and no preferred key went in, nothing is created and no key is returned |
| ConnectOdoo.CreatedIffRecorded | deploy/hooks/n8n/shukcity/dev/post-init/connect-odoo.py:74-121 | "created" is reported exactly when one record was added, and that record is for the user |
| ConnectOdoo.ApiKeyStore.constructor | deploy/hooks/n8n/shukcity/dev/post-init/connect-odoo.py:83 | the store holds the given keys |
| ConnectOdoo.ApiKeyStore.EnsureApiKey | deploy/hooks/n8n/shukcity/dev/post-init/connect-odoo.py:74-121 | the outcome and the records added are those of `EnsureApiKeyResult` |
| ConnectOdoo.KeyFlowProperties | deploy/hooks/n8n/shukcity/dev/post-init/connect-odoo.py:219-252 | a cached key is never written back to the host file; a host write carries a newly created key, which is the key of the run |
| ConnectOdoo.CachedKeyReused | deploy/hooks/n8n/shukcity/dev/post-init/connect-odoo.py:224-228 | an installable cached key is installed and becomes the key of the run |
| ConnectOdoo.PersistKey | deploy/hooks/n8n/shukcity/dev/post-init/connect-odoo.py:219-252 | the key steps leave the key flow `KeyFlowOf` and write the files `KeyFiles` names |
| ConnectOdoo.EnsureKey | deploy/hooks/n8n/shukcity/dev/post-init/connect-odoo.py:221-249 | the cached key is installed when there is one, a key is ensured otherwise; the result is `KeyFlowOf` and the records it adds |
| ConnectOdoo.WriteKeyFiles | deploy/hooks/n8n/shukcity/dev/post-init/connect-odoo.py:231-252 | the host file is written for a new key, the container file for any key: the writes `KeyFiles` names |
| ConnectOdoo.CachedKey | deploy/hooks/n8n/shukcity/dev/post-init/connect-odoo.py:224-228 | installing the cached key gives `CachedFlow` and adds its records |
| ConnectOdoo.FreshKey | deploy/hooks/n8n/shukcity/dev/post-init/connect-odoo.py:229-249 | ensuring a key without a cache gives `FreshFlow` and adds its records |
| ConnectOdoo.AltKey | deploy/hooks/n8n/shukcity/dev/post-init/connect-odoo.py:237-249 | the retry under `n8n-<time>` extends the records added so far |
| ConnectOdoo.Run | deploy/hooks/n8n/shukcity/dev/post-init/connect-odoo.py:173-265 | no database gives exit 0 with nothing changed; a registry that fails gives 0 on "does not exist" and 1 otherwise; otherwise the connected steps run |
| ConnectOdoo.Connected | deploy/hooks/n8n/shukcity/dev/post-init/connect-odoo.py:200-265 | the URL parameter is ensured, the `n8n` user is upserted; the key flow and its file writes are those of `PersistKey`, with exit 0 |
| ConnectOdoo.EnsureBot | deploy/hooks/n8n/shukcity/dev/post-init/connect-odoo.py:211-216 | the `n8n` user is upserted with system rights, and its id is returned |
| ConnectOdoo.KeySteps | deploy/hooks/n8n/shukcity/dev/post-init/connect-odoo.py:219-252 | the cached key is read only when the target is named; the key flow and the file writes are those of `PersistKey` |
| ConnectOdoo.BotUid | deploy/hooks/n8n/shukcity/dev/post-init/connect-odoo.py:211-216 | the technical user's id names the user with login `n8n` after the upsert |
| N8nBootstrap.DnsErrorIff | deploy/hooks/n8n/shukcity/stage/post-init/bootstrap.py:53-62 | a message is a DNS error exactly when, lower-cased, it contains one of the six markers |
| N8nBootstrap.NoMessageNoDnsError | deploy/hooks/n8n/shukcity/stage/post-init/bootstrap.py:53-54 | a missing or empty message is not a DNS error |
| N8nBootstrap.RStripSlash | deploy/hooks/n8n/shukcity/stage/post-init/bootstrap.py:105 | the stripped URL does not end with `/` |
| N8nBootstrap.CandidateBaseUrls | deploy/hooks/n8n/shukcity/stage/post-init/bootstrap.py:84-109 | the method computes `CandidateUrls` |
| N8nBootstrap.CollectCandidates | deploy/hooks/n8n/shukcity/stage/post-init/bootstrap.py:85-100 | primary, then the non-blank alternates, then the three fallbacks |
| N8nBootstrap.AlternatesOf | deploy/hooks/n8n/shukcity/stage/post-init/bootstrap.py:90-94 | the comma-separated parts, stripped, blank ones dropped |
| N8nBootstrap.DedupStripped | deploy/hooks/n8n/shukcity/stage/post-init/bootstrap.py:101-109 | trailing slashes stripped, first occurrences kept in order |
| N8nBootstrap.CandidateUrlsProperties | deploy/hooks/n8n/shukcity/stage/post-init/bootstrap.py:84-109 | the candidates are distinct, are exactly the stripped raw candidates, and keep their order; they include the fallbacks and are never empty |
| N8nBootstrap.CandidateUrlsNoSlash | deploy/hooks/n8n/shukcity/stage/post-init/bootstrap.py:104-108 | no candidate ends with `/` |
| N8nBootstrap.FallbacksPresent | deploy/hooks/n8n/shukcity/stage/post-init/bootstrap.py:96-100 | the three fallback URLs are always candidates |
| N8nBootstrap.WaitBudget | deploy/hooks/n8n/shukcity/stage/post-init/bootstrap.py:114-119 | an unparsable value gives 120; otherwise the parsed value, but never under 10 |
| N8nBootstrap.PerTry | deploy/hooks/n8n/shukcity/stage/post-init/bootstrap.py:127-128 | the per-candidate timeout is the time left, clamped to 5..12 |
| N8nBootstrap.FirstReadyIsFirst | deploy/hooks/n8n/shukcity/stage/post-init/bootstrap.py:123-139 | the base URL is the first ready candidate, or empty when none is ready |
| N8nBootstrap.SelectBaseUrl | deploy/hooks/n8n/shukcity/stage/post-init/bootstrap.py:123-142 | the sweep computes `FirstReady` |
| N8nBootstrap.OwnerSetUpIff | deploy/hooks/n8n/shukcity/stage/post-init/bootstrap.py:161-171 | the owner counts as set up exactly when a setup flag is truthy or `showSetupOnFirstLoad` is `False` |
| N8nBootstrap.RestPrefixProperties | deploy/hooks/n8n/shukcity/stage/post-init/bootstrap.py:177-178 | the prefix is one `/` and a part that neither begins nor ends with `/` |
| N8nBootstrap.RestPrefixDefault | deploy/hooks/n8n/shukcity/stage/post-init/bootstrap.py:177-178 | with neither setting the prefix is `/rest` |
| N8nBootstrap.RestPrefixEndpoint | deploy/hooks/n8n/shukcity/stage/post-init/bootstrap.py:177-178 | a non-empty `endpoint` wins over `restEndpoint` |
| N8nBootstrap.PlainStep | deploy/hooks/n8n/shukcity/stage/post-init/bootstrap.py:189-227 | 200/201 succeed, and a 400/409 saying "already" or "initialized" succeeds; exit 1 exactly for a raised non-HTTP error or a 400/409 whose body has no message; the handler exactly for an `HTTPError`; every other reply moves on |
| N8nBootstrap.Plain | deploy/hooks/n8n/shukcity/stage/post-init/bootstrap.py:187-227 | the attempts end with an exit code 0 or 1 or with the handler, after at most three POSTs |
| N8nBootstrap.PlainAttempts | deploy/hooks/n8n/shukcity/stage/post-init/bootstrap.py:187-227 | the method computes `Plain` |
| N8nBootstrap.FallbackPathsProperties | deploy/hooks/n8n/shukcity/stage/post-init/bootstrap.py:261-282 | the de-duplicated paths are distinct, hold every candidate, keep first occurrences in order |
| N8nBootstrap.FallbackStep | deploy/hooks/n8n/shukcity/stage/post-init/bootstrap.py:284-311 | a fallback reply never goes to the outer handler; a reply ends with 0 exactly for 200/201 and moves on otherwise; an HTTP error ends with 0 exactly for a 400/409 saying "already" or "initialized", moves on for 401, 403 and 404, and ends otherwise, with 1; an error that is not HTTP ends with 1 |
| N8nBootstrap.FallbackRun | deploy/hooks/n8n/shukcity/stage/post-init/bootstrap.py:283-311 | the loop decides 0 or 1, or posts to every path without deciding |
| N8nBootstrap.FallbackSkips | deploy/hooks/n8n/shukcity/stage/post-init/bootstrap.py:300-307 | 401, 403 and 404 move on to the next path |
| N8nBootstrap.FallbackDecides | deploy/hooks/n8n/shukcity/stage/post-init/bootstrap.py:296-306 | any other HTTP error ends the loop: 0 when it says the owner exists, else 1 |
| N8nBootstrap.FallbackReplies | deploy/hooks/n8n/shukcity/stage/post-init/bootstrap.py:284-311 | in the loop, a 200/201 reply ends it with 0 after that path, an error that is not HTTP ends it with 1, and a reply with any other status moves on to the next path |
| N8nBootstrap.FallbackLoop | deploy/hooks/n8n/shukcity/stage/post-init/bootstrap.py:283-311 | the loop computes `FallbackRun` |
| N8nBootstrap.SetupExitCodes | deploy/hooks/n8n/shukcity/stage/post-init/bootstrap.py:187-339 | the setup phase always ends with 0 or 1 |
| N8nBootstrap.FirstEndpointCreates | deploy/hooks/n8n/shukcity/stage/post-init/bootstrap.py:189-193 | a created owner at `/owner/setup` ends with 0 after one POST |
| N8nBootstrap.PlainAttemptsFail | deploy/hooks/n8n/shukcity/stage/post-init/bootstrap.py:225-227 | three plain failures end with 1 after exactly the three POSTs |
| N8nBootstrap.Run | deploy/hooks/n8n/shukcity/stage/post-init/bootstrap.py:112-339 | no ready URL or a failed settings wait gives 1, and a set-up owner gives 0 without a POST; otherwise the setup phase runs against the first ready URL and the settings' prefix |
| N8nBootstrap.Setup | deploy/hooks/n8n/shukcity/stage/post-init/bootstrap.py:187-339 | the plain attempts and the handler compute `SetupOutcome` |
| N8nBootstrap.HttpErrorHandled | deploy/hooks/n8n/shukcity/stage/post-init/bootstrap.py:228-316 | an `HTTPError` from the n-th POST reaches the handler; on 400/409 it ends 0 exactly when the settings re-check shows the owner or the detail says "already"/"initialized"; on 401/403/404 the fallback loop decides, else the final re-check; any other code gives 1 |
| OdooBootstrap.NormalizeTokens | deploy/hooks/odoo/shukcity/dev/post-init/bootstrap.py:35-46 | the loop and the comprehension compute `TokensOf` |
| OdooBootstrap.TokensAreTrimmed | deploy/hooks/odoo/shukcity/dev/post-init/bootstrap.py:35-46 | every token is non-empty and stripped |
| OdooBootstrap.NormalizeIdempotent | deploy/hooks/odoo/shukcity/dev/post-init/bootstrap.py:35-46 | normalising a normalised list changes nothing |
| OdooBootstrap.TokensOfCommaJoined | deploy/hooks/odoo/shukcity/dev/post-init/bootstrap.py:38-45 | round trip: tokens written as `a,b,c` read back as the same tokens |
| OdooBootstrap.AppendGroupIds | deploy/hooks/odoo/shukcity/dev/post-init/bootstrap.py:183-189 | the inner loop appends the ids of the groups the xmlids name |
| OdooBootstrap.ResolveGroups | deploy/hooks/odoo/shukcity/dev/post-init/bootstrap.py:168-197 | the group ids the tokens name, each once, in first-occurrence order |
| OdooBootstrap.ResolvedGroups | deploy/hooks/odoo/shukcity/dev/post-init/bootstrap.py:168-197 | the ids are distinct; an id is present exactly when some token's xmlid names that group |
| OdooBootstrap.ShorthandIgnoresCase | deploy/hooks/odoo/shukcity/dev/post-init/bootstrap.py:182 | shorthands are looked up without regard to case |
| OdooBootstrap.FailedProblemsProperties | deploy/hooks/odoo/shukcity/dev/post-init/bootstrap.py:106-115 | no problem exactly when all checks pass; every reported problem is a failed check's, and every failed check is reported |
| OdooBootstrap.EnterpriseProblems | deploy/hooks/odoo/shukcity/dev/post-init/bootstrap.py:106-112 | the problems come in the order code, module, directory |
| OdooBootstrap.ValidateEnterprise | deploy/hooks/odoo/shukcity/dev/post-init/bootstrap.py:88-116 | ok exactly when code, module and directory are all present; "OK" then, otherwise the problems joined by `; ` |
| OdooBootstrap.FailedChecksReported | deploy/hooks/odoo/shukcity/dev/post-init/bootstrap.py:114-115 | the detail names every failed check |
| OdooBootstrap.DbNameOf | deploy/hooks/odoo/shukcity/dev/post-init/bootstrap.py:121 | the database name is never empty |
| OdooBootstrap.ActivateLanguages | deploy/hooks/odoo/shukcity/dev/post-init/bootstrap.py:206-215 | the languages activated are the codes that did not raise, in order |
| OdooBootstrap.Run | deploy/hooks/odoo/shukcity/dev/post-init/bootstrap.py:119-248 | the database, the languages activated, and validation exactly on `prod`; the user upserted with the resolved groups and exit 0, so that the login's user is named after it and has the password; or exit 1 with the table untouched when the write raises |
| OdooBootstrap.BootstrapUserWritten | deploy/hooks/odoo/shukcity/dev/post-init/bootstrap.py:228-246 | after the upsert logins stay unique and the login's user has the capitalised login as name and the password; with resolved groups it has exactly those, and without them an existing user keeps its groups |
| OdooBootstrap.LanguagesStep | deploy/hooks/odoo/shukcity/dev/post-init/bootstrap.py:131-135 | the language codes are normalised and the activated ones are those whose activation does not raise, in order |
| OdooBootstrap.UserValsStep | deploy/hooks/odoo/shukcity/dev/post-init/bootstrap.py:138-140 | the values written to the default user: `USER_LOGIN` or `user` as login, `USER_PASSWORD` or the default password, and the ids of the groups `USER_GROUPS` (or the default groups) names, each once |
| OdooBootstrap.ValidationStep | deploy/hooks/odoo/shukcity/dev/post-init/bootstrap.py:220-226 | the enterprise validation runs exactly on `prod`, and passes exactly when the code, `web_enterprise` and the directory are all there |
| HelpdeskTicket.FindAncestorTeam | odoo/addons/custom/helpdesk_custom/models/helpdesk_ticket.py:348-352 | the parent walk computes `AncestorTeam` |
| HelpdeskTicket.AncestorTeamNearest | odoo/addons/custom/helpdesk_custom/models/helpdesk_ticket.py:113-117 | the walk finds the team of the nearest category up the chain that has one; it finds none exactly when no category on the chain has a team |
| HelpdeskTicket.CategoryUser | odoo/addons/custom/helpdesk_custom/models/helpdesk_ticket.py:128-130 | the category's user exactly when that user is a member of the team, else nobody |
| HelpdeskTicket.SyncedTeamNearest | odoo/addons/custom/helpdesk_custom/models/helpdesk_ticket.py:344-359 | the category's own team wins, and a kept team is never overridden by an ancestor; otherwise the nearest ancestor's team, else the fallback |
| HelpdeskTicket.CreateTeam | odoo/addons/custom/helpdesk_custom/models/helpdesk_ticket.py:344-359 | create sets the category's team, else (without a given team) the nearest ancestor's, else the company's first team |
| HelpdeskTicket.CreateAssignee | odoo/addons/custom/helpdesk_custom/models/helpdesk_ticket.py:361-373 | the assignee is set only when the resolved team assigns by category and none was given, and it is then set whenever those hold; it is the category's user when that user is a member, else `False` |
| HelpdeskTicket.CreateTouchesTeamAndUser | odoo/addons/custom/helpdesk_custom/models/helpdesk_ticket.py:339-373 | no field other than `team_id` and `user_id` changes before the SLA step |
| HelpdeskTicket.WriteTeam | odoo/addons/custom/helpdesk_custom/models/helpdesk_ticket.py:410-419 | write never falls back to a company team; a supplied team survives unless the category has its own |
| HelpdeskTicket.WriteAssignee | odoo/addons/custom/helpdesk_custom/models/helpdesk_ticket.py:421-435 | a supplied `user_id` is kept; one is set exactly for a single unassigned ticket whose target team assigns by category and no `user_id` is supplied, and it is then the category's user when a member, else `False` |
| HelpdeskTicket.FoldCommands | odoo/addons/custom/helpdesk_custom/models/helpdesk_ticket.py:378-394 | the command loop computes `Fold`, with None where a command raises |
| HelpdeskTicket.FoldConcat | odoo/addons/custom/helpdesk_custom/models/helpdesk_ticket.py:381-394 | folding a concatenation folds the second part from the first's result |
| HelpdeskTicket.FoldLast | odoo/addons/custom/helpdesk_custom/models/helpdesk_ticket.py:381-394 | the last command applies to what the others left |
| HelpdeskTicket.FoldReplaceForgets | odoo/addons/custom/helpdesk_custom/models/helpdesk_ticket.py:387-394 | a 6 or 5 command forgets everything before it |
| HelpdeskTicket.FoldHashable | odoo/addons/custom/helpdesk_custom/models/helpdesk_ticket.py:380-392 | the id set never holds a list |
| HelpdeskTicket.ClampSla | odoo/addons/custom/helpdesk_custom/models/helpdesk_ticket.py:375-398 | the SLA step: a non-empty fold becomes one `(6, 0, [x])` for a member x, and anything else leaves vals alone |
| HelpdeskTicket.SingleSlaFolds | odoo/addons/custom/helpdesk_custom/models/helpdesk_ticket.py:396 | the command written folds to exactly that SLA |
| HelpdeskTicket.ClampLeavesAtMostOne | odoo/addons/custom/helpdesk_custom/models/helpdesk_ticket.py:375-396 | after the step `sla_ids` names at most one SLA |
| HelpdeskTicket.ClampIdempotent | odoo/addons/custom/helpdesk_custom/models/helpdesk_ticket.py:375-398 | applying the step to its own result changes nothing |
| HelpdeskTicket.CreateVals | odoo/addons/custom/helpdesk_custom/models/helpdesk_ticket.py:339-400 | one `vals` gets the team and assignee steps, then the SLA step |
| HelpdeskTicket.CreateValsList | odoo/addons/custom/helpdesk_custom/models/helpdesk_ticket.py:333-401 | every `vals` is prepared, in order, none lost |
| HelpdeskTicket.WriteVals | odoo/addons/custom/helpdesk_custom/models/helpdesk_ticket.py:404-435 | the statements compute `WriteSynced` |
| HelpdeskTicket.OptOutAdmitsNothing | odoo/addons/custom/helpdesk_custom/models/helpdesk_ticket.py:188-190 | an opted-out ticket can select no stored SLA |
| HelpdeskTicket.DomainAgreesWithFind | odoo/addons/custom/helpdesk_custom/models/helpdesk_ticket.py:183-220 | with a team and a stage, the form domain admits exactly the SLAs `_sla_find` matches |
| HelpdeskTicket.DomainWithoutTeam | odoo/addons/custom/helpdesk_custom/models/helpdesk_ticket.py:194-198 | without a team only team-agnostic SLAs are offered |
| HelpdeskTicket.KeepFirstProperties | odoo/addons/custom/helpdesk_custom/models/helpdesk_ticket.py:152-157 | at most one SLA remains, the first, none exactly when there were none, and repeating changes nothing |
| HelpdeskTicket.OnchangeValues | odoo/addons/custom/helpdesk_custom/models/helpdesk_ticket.py:101-146 | the three onchange steps compute `OnchangeState` |
| HelpdeskTicket.OnchangeTeamStep | odoo/addons/custom/helpdesk_custom/models/helpdesk_ticket.py:107-123 | the team step computes `OnchangeTeam`: the category's team, else the nearest ancestor's for a ticket without team, else the company's first team |
| HelpdeskTicket.Ticket.constructor | odoo/addons/custom/helpdesk_custom/models/helpdesk_ticket.py:101-103 | the record holds the given values |
| HelpdeskTicket.Ticket.OnchangeCategory | odoo/addons/custom/helpdesk_custom/models/helpdesk_ticket.py:101-150 | the ticket becomes `OnchangeState` and the assignee domain is the team's members |
| HelpdeskTicket.Ticket.LimitOneSla | odoo/addons/custom/helpdesk_custom/models/helpdesk_ticket.py:152-157 | only the first SLA is kept and no other field changes |
| HelpdeskTicket.Ticket.BumpSla | odoo/addons/custom/helpdesk_custom/models/helpdesk_ticket.py:553-555 | the counter goes up by one and no other field changes |
| HelpdeskTicket.OnchangeAssigneeIsMember | odoo/addons/custom/helpdesk_custom/models/helpdesk_ticket.py:125-131 | the assignee is the category's user exactly when that user is a member of the team, and nobody otherwise |
| HelpdeskTicket.BumpAll | odoo/addons/custom/helpdesk_custom/models/helpdesk_ticket.py:553-555 | every ticket of the recordset has its counter raised by one, nothing else |
| HelpdeskTicket.CompressSlas | odoo/addons/custom/helpdesk_custom/models/helpdesk_ticket.py:437-445 | every ticket keeps only its first SLA, nothing else |
| HelpdeskTicket.TriggerFieldsProperties | odoo/addons/custom/helpdesk_custom/models/helpdesk_ticket.py:548-551 | the fields are distinct and are exactly the inherited ones plus the three added ones; first occurrences keep their order, and the three added ones are always present |
| HelpdeskTicket.GenerateKey | odoo/addons/custom/helpdesk_custom/models/helpdesk_ticket.py:491-499 | the key is the ticket's trigger-field values in order |
| HelpdeskTicket.Groups | odoo/addons/custom/helpdesk_custom/models/helpdesk_ticket.py:501-509 | every group is non-empty |
| HelpdeskTicket.GroupsAreFilters | odoo/addons/custom/helpdesk_custom/models/helpdesk_ticket.py:501-509 | a key has a group exactly when an eligible ticket has it; the group is those tickets in order |
| HelpdeskTicket.UnionTags | odoo/addons/custom/helpdesk_custom/models/helpdesk_ticket.py:544-545 | a tag is in the union exactly when some ticket of the group has it |
| HelpdeskTicket.ApplicableIff | odoo/addons/custom/helpdesk_custom/models/helpdesk_ticket.py:511-545 | an SLA applies to a group when it is one of the first ticket's explicit SLAs, or matches team, priority, stage and category; it must also have no tags or share one with the group, and nothing else applies |
| HelpdeskTicket.SearchSlas | odoo/addons/custom/helpdesk_custom/models/helpdesk_ticket.py:542-545 | the search of one group returns `Applicable` |
| HelpdeskTicket.SlaFind | odoo/addons/custom/helpdesk_custom/models/helpdesk_ticket.py:484-546 | tickets are grouped as `Groups` says, and every group gets its applicable SLA ids |
| HelpdeskTicket.GroupTickets | odoo/addons/custom/helpdesk_custom/models/helpdesk_ticket.py:501-538 | the first loop builds the groups, and each domain from the group's first ticket and its ancestors |
| HelpdeskTicket.GroupTicket | odoo/addons/custom/helpdesk_custom/models/helpdesk_ticket.py:501-538 | one ticket joins the group of its key exactly when it is eligible; a new group gets its domain from that ticket, ancestors looked up once per category |
| HelpdeskTicket.SearchGroups | odoo/addons/custom/helpdesk_custom/models/helpdesk_ticket.py:540-546 | the second loop gives every group its applicable SLA ids |
| HelpdeskTicket.ObsoleteIff | odoo/addons/custom/helpdesk_custom/models/helpdesk_ticket.py:561-587 | a status is pruned exactly when a trigger field was written and the status belongs to a ticket of the recordset; that ticket must also be allowed nothing, or the status's SLA must not be allowed; whether it was reached plays no part |
| HelpdeskTicket.ObsoleteUpToIff | odoo/addons/custom/helpdesk_custom/models/helpdesk_ticket.py:578-585 | the statuses gathered over the first n tickets are those of the first n tickets that no longer match |
| HelpdeskTicket.GroupIdsOfTickets | odoo/addons/custom/helpdesk_custom/models/helpdesk_ticket.py:573-576 | a ticket's id is among its group's ids exactly when the ticket is in the group |
| HelpdeskTicket.AssignGroup | odoo/addons/custom/helpdesk_custom/models/helpdesk_ticket.py:574-576 | every ticket of the group maps to the group's SLA ids, every other entry is kept |
| HelpdeskTicket.AllowedByTicket | odoo/addons/custom/helpdesk_custom/models/helpdesk_ticket.py:572-579 | each ticket is allowed exactly its group's SLA ids, or nothing when `_sla_find` skips it |
| HelpdeskTicket.CleanupObsoleteStatuses | odoo/addons/custom/helpdesk_custom/models/helpdesk_ticket.py:561-587 | the statuses unlinked are exactly `Obsolete` |
| HelpdeskTicket.TicketObsolete | odoo/addons/custom/helpdesk_custom/models/helpdesk_ticket.py:577-584 | a ticket allowed nothing loses all its statuses; otherwise those whose SLA is not allowed |
| HelpdeskTicket.DisplayOf | odoo/addons/custom/helpdesk_custom/models/helpdesk_ticket.py:267-274 | a bare name when the stripped registry is empty; otherwise the stripped registry, `-` and the name |
| HelpdeskTicket.BranchDisplay | odoo/addons/custom/helpdesk_custom/models/helpdesk_ticket.py:267-276 | `False` exactly when there is no branch |
| HelpdeskTicket.ParseDisplay | odoo/addons/custom/helpdesk_custom/models/helpdesk_ticket.py:287-292 | split at the first `-` into stripped parts; without `-`, no registry and the whole value as name |
| HelpdeskTicket.InverseWrites | odoo/addons/custom/helpdesk_custom/models/helpdesk_ticket.py:283-297 | a blank value writes nothing; a written registry differs from the stored one; a written name is non-empty and differs |
| HelpdeskTicket.InverseBranchDisplay | odoo/addons/custom/helpdesk_custom/models/helpdesk_ticket.py:278-299 | only the ticket's branch company can change, and the set of companies stays the same |
| HelpdeskTicket.DisplayIsStripped | odoo/addons/custom/helpdesk_custom/models/helpdesk_ticket.py:271-274 | a display of stripped parts is itself stripped |
| HelpdeskTicket.ParseOfDisplay | odoo/addons/custom/helpdesk_custom/models/helpdesk_ticket.py:267-292 | round trip: the computed display parses back to its registry and name |
| HelpdeskTicket.DisplayThenInverseWritesNothing | odoo/addons/custom/helpdesk_custom/models/helpdesk_ticket.py:267-299 | saving the display as computed writes nothing to the company |
| HelpdeskTicket.WrittenByInverse | odoo/addons/custom/helpdesk_custom/models/helpdesk_ticket.py:293-299 | afterwards the company holds the registry part, and the name part when it is not empty |
| HelpdeskTicket.InverseThenDisplay | odoo/addons/custom/helpdesk_custom/models/helpdesk_ticket.py:267-299 | round trip: after saving an edited value, the branch displays that value with its parts stripped |
| HelpdeskTicket.PreviewParts | odoo/addons/custom/helpdesk_custom/models/helpdesk_ticket.py:245-255 | a cell for each of the first three images, and a `+n` badge exactly when there are more |
| HelpdeskTicket.OwnImages | odoo/addons/custom/helpdesk_custom/models/helpdesk_ticket.py:233-234 | the image attachments, in order |
| HelpdeskTicket.BuildPreviewParts | odoo/addons/custom/helpdesk_custom/models/helpdesk_ticket.py:245-255 | the loop computes `PreviewParts` |
| HelpdeskTicket.ComputeMediaPreview | odoo/addons/custom/helpdesk_custom/models/helpdesk_ticket.py:229-256 | the compute gives `PreviewHtml` |
| HelpdeskTicket.PreviewShowsImages | odoo/addons/custom/helpdesk_custom/models/helpdesk_ticket.py:229-256 | the preview is `False` exactly when there is no image; otherwise it links each of the first three images, and shows the badge when there are more |
| HelpdeskTicket.ReadCount | odoo/addons/custom/helpdesk_custom/models/helpdesk_ticket.py:323-326 | a count read back is positive |
| HelpdeskTicket.CountWordReadsBack | odoo/addons/custom/helpdesk_custom/models/helpdesk_ticket.py:323-326 | a positive count is printed without spaces and reads back unchanged |
| HelpdeskTicket.CountsTextReadsBack | odoo/addons/custom/helpdesk_custom/models/helpdesk_ticket.py:318-327 | round trip: both counts can be read back from the text; the text is empty exactly when both counts are zero |
| HelpdeskTicket.ImageNotVideo | odoo/addons/custom/helpdesk_custom/models/helpdesk_ticket.py:318-321 | no attachment is both an image and a video |
| HelpdeskTicket.CountsPartitionMedia | odoo/addons/custom/helpdesk_custom/models/helpdesk_ticket.py:309-321 | the image and video counts add up to the media count |
| HelpdeskTicket.MediaCountsCover | odoo/addons/custom/helpdesk_custom/models/helpdesk_ticket.py:305-327 | the counts shown are the ticket's own images and videos, when it has media; they read back from the text |
| HelpdeskTicket.CheckAssigneeIsTeamMember | odoo/addons/custom/helpdesk_custom/models/helpdesk_ticket.py:457-462 | no error exactly when every ticket with a team and an assignee has the assignee among the members; otherwise the message given |
| HelpdeskTicket.OnchangeSatisfiesAssigneeCheck | odoo/addons/custom/helpdesk_custom/models/helpdesk_ticket.py:101-131 | the onchange, with a category-assigning team, leaves a ticket that passes the assignee check |
| HelpdeskTicket.CheckBranchIsChildOfCompany | odoo/addons/custom/helpdesk_custom/models/helpdesk_ticket.py:464-474 | no error exactly when every ticket with both has a branch that is a child of its company; otherwise the message given |

## Left out

- Input and output are not modelled. That covers printing, logging, the colouring of log messages and the stream of `odoo` CLI output. The colouring of one output line is modelled (`InstallModules.ColorizeSeverity`).
- The model does not run processes: `os.system`, `subprocess.Popen`, the `rtlcss` and npm installation (`ensure_rtlcss_installed`) and the pip requirements installation. What they return is a parameter (`cliStatus`) or left out.
- Time, sleeping and deadlines are not modelled. The n8n readiness wait (`_wait_for_ready`) is an oracle `ready`, and its retry loop is not modelled. The fresh key note uses a parameter `now`.
- HTTP is an oracle from URL to reply. JSON bodies hold integers: floats are not modelled.
- File contents are parameters, and a failed write is a set of failing paths. Directory creation is not modelled.
- Universal newlines are modelled by turning every `\r` into `\n` before the text is cut into lines (`InstallModules.NormalizeNewlines`). A `\r\n` then gives an extra empty line, which holds no module name. Other line separators are not modelled.
- Whitespace, `isalnum`, `lower`, `upper`, `capitalize` and the regex word boundary `\b` (`InstallModules.IsWordChar`, `InstallModules.WholeWordAt`) cover ASCII only. Unicode case mapping, Unicode whitespace and Unicode word characters are not modelled: a severity word right after a non-ASCII letter, as in `éERROR`, is painted by the model but left alone by Python's Unicode `\b`.
- The media icons are kept as the opaque characters the source holds. No encoding is modelled.
- The Odoo ORM is modelled as plain tables: transactions, access rights, `sudo` and record caching are not. A dangling record id reads as an empty record.
- `super().create` and `super().write` are not modelled: the model stops at the values handed to them. The inherited `_sla_find_extra_domain`, OR-ed with `_sla_find_false_domain` as at helpdesk_ticket.py:536-538, is the oracle `SlaDb.extra`.
- The `parent_of` and `child_of` searches are parameters: the ancestor sets of a category, and an oracle `childOf`.
- The category hierarchy comes with a ghost `rank` whose existence stands for Odoo's recursion check on `parent_id`. Cyclic parents are not modelled.
- A Python set iterates in an order left open. `ClampSla` keeps some member of the id set, not a particular one.
- `_ensure_api_key` can fall through the `hasattr` test and return `None`; main then unpacks `None` and raises. That path is modelled as an outcome `FellThrough`, and the run's result is `Unspecified` there.
- The attachment searches of the media preview and the media counts are a parameter `searched`: their ordering and limit are the database's. A ticket id of 0 stands for an unsaved ticket.
- Tuples and lists are one kind of value (`List`) in the `sla_ids` commands. So a tuple id inside a 3 or 4 command, or inside a 6 command's ids, is modelled as raising, while Python would add the hashable tuple to the set.
- `HelpdeskTicket.OnchangeValues` models the SLA search of the onchange as a parameter `defaultSla`. That is the first SLA in the ancestors' categories, or none when the search raises.
- `_compute_preview_compact`, `_compute_preview_uid` and `_compute_allowed_user_ids` are not modelled. They are constant or one-line assignments with no logic.
- `_onchange_team_id_set_user_domain` and `_onchange_company_set_branch_domain` are not modelled. The first returns the member domain that `Ticket.OnchangeCategory` already returns; the second returns the `branch_id` domain of the allowed companies that are the ticket's company or its children, and also clears a selected branch outside that domain (helpdesk_ticket.py:179-180). Neither the domain nor the clearing is modelled, since the model does not hold the user's allowed companies.
- `default_get` and the field declarations are not modelled.
- The per-ticket computes and constraints are modelled for one ticket or for a list of records. The recordset `for ticket in self` loops appear only where they carry logic: `BumpAll`, `CompressSlas`, the constraint checks and the SLA clean-up.
- `vals` dicts that `create` and `write` mutate are modelled as a returned map, since no caller sees the aliasing.
- `InstallModules.Run`, `ConnectOdoo.Run` and `OdooBootstrap.Run` do not model the exceptions the Odoo registry raises inside the `with` block, except those the scripts catch; in install_modules.py the failure of `Registry(db_name).cursor()` at line 124 is not caught at all and ends the script with a traceback.
