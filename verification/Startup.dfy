/** What main does before it starts the child, and what one tick of the watcher does. */
module Startup {
  import opened Strings
  import opened Pattern
  import opened Vault
  import opened Resolver
  import opened Runs
  import References
  import opened Injector
  import opened Digest
  import opened Watch
  import opened Writes

  // ---------------------------------------------------------------------------------------
  // The environment of the child.
  // ---------------------------------------------------------------------------------------

  // The variables that are held back; true for those that a login lets through.
  const SanitizeTable: map<string, bool> := map[
    "VAULT_TOKEN" := true, "VAULT_ADDR" := true, "VAULT_AGENT_ADDR" := true, "VAULT_CACERT" := true,
    "VAULT_CAPATH" := true, "VAULT_CLIENT_CERT" := true, "VAULT_CLIENT_KEY" := true,
    "VAULT_CLIENT_TIMEOUT" := true, "VAULT_SRV_LOOKUP" := true, "VAULT_SKIP_VERIFY" := true,
    "VAULT_NAMESPACE" := true, "VAULT_TLS_SERVER_NAME" := true, "VAULT_WRAP_TTL" := true,
    "VAULT_MFA" := true, "VAULT_MAX_RETRIES" := true, "VAULT_CLUSTER_ADDR" := false,
    "VAULT_REDIRECT_ADDR" := false, "VAULT_CLI_NO_COLOR" := false, "VAULT_RATE_LIMIT" := false,
    "VAULT_ROLE" := false, "VAULT_PATH" := false, "VAULT_AUTH_METHOD" := false,
    "VAULT_JWT_FILE" := false, "VAULT_IGNORE_MISSING_SECRETS" := false,
    "VAULT_ENV_PASSTHROUGH" := false, "VAULT_JSON_LOG" := false, "VAULT_LOG_LEVEL" := false,
    "VAULT_REVOKE_TOKEN" := false, "VAULT_ENV_DAEMON" := false, "VAULT_ENV_FROM_PATH" := false,
    "VAULT_ENV_DELAY" := false, "VAULT_ENV_RESTART_ON_SECRET_CHANGE" := false,
    "VAULT_ENV_SECRET_POLL_INTERVAL" := false]

  function Trimmed(names: seq<string>): set<string> {
    set name | name in names && TrimSpace(name) != "" :: TrimSpace(name)
  }

  lemma TrimmedLast(names: seq<string>, name: string)
    ensures Trimmed(names + [name]) == Trimmed(names) + if TrimSpace(name) == "" then {} else {TrimSpace(name)}
  {
  }

  // The names that VAULT_ENV_PASSTHROUGH exempts; a login exempts its token.
  function Passed(passthrough: string, login: bool): set<string> {
    Trimmed(Split(passthrough, ',') + if login then ["VAULT_TOKEN"] else [])
  }

  predicate Allowed(table: map<string, bool>, login: bool, name: string) {
    name !in table || (login && table[name])
  }

  class SanitizedEnviron {
    var env: seq<string>
    const login: bool

    constructor (login: bool)
      ensures env == [] && this.login == login
    {
      env := [];
      this.login := login;
    }

    method Append(table: map<string, bool>, name: string, value: string)
      modifies this
      ensures env == if Allowed(table, login, name) then old(env) + [name + "=" + value] else old(env)
    {
      if name !in table || (login && table[name]) {
        env := env + [name + "=" + value];
      }
    }
  }

  // The table without the names that are passed through.
  method DropPassed(sanitizeEnvmap: map<string, bool>, passthrough: string,
                    login: bool) returns (table: map<string, bool>)
    ensures table == sanitizeEnvmap - Passed(passthrough, login)
  {
    hide TrimSpace, Split;
    table := sanitizeEnvmap;
    var passthroughEnvVars := Split(passthrough, ',');
    if login { passthroughEnvVars := passthroughEnvVars + ["VAULT_TOKEN"]; }
    assert passthroughEnvVars == Split(passthrough, ',') + if login then ["VAULT_TOKEN"] else [];
    for i := 0 to |passthroughEnvVars|
      invariant table == sanitizeEnvmap - Trimmed(passthroughEnvVars[..i])
    {
      var trimmed := TrimSpace(passthroughEnvVars[i]);
      assert passthroughEnvVars[..i + 1] == passthroughEnvVars[..i] + [passthroughEnvVars[i]];
      TrimmedLast(passthroughEnvVars[..i], passthroughEnvVars[i]);
      if trimmed != "" {
        table := table - {trimmed};
      }
    }
    assert passthroughEnvVars[..|passthroughEnvVars|] == passthroughEnvVars;
  }

  // The environment: one entry for each name, in this order.
  function EnvEntries(names: seq<string>, secrets: map<string, string>): seq<string>
    requires forall name | name in names :: name in secrets
  {
    seq(|names|, i requires 0 <= i < |names| => names[i] + "=" + secrets[names[i]])
  }

  function AllowedNames(secrets: map<string, string>, table: map<string, bool>, login: bool): set<string> {
    set name | name in secrets && Allowed(table, login, name)
  }

  ghost predicate IsChildEnv(env: seq<string>, secrets: map<string, string>, table: map<string, bool>, login: bool) {
    exists names :: Enumerates(names, AllowedNames(secrets, table, login)) && EntriesFor(names, secrets, env)
  }

  predicate EntriesFor(names: seq<string>, secrets: map<string, string>, env: seq<string>) {
    (forall name | name in names :: name in secrets) && env == EnvEntries(names, secrets)
  }

  method AppendAll(secrets: map<string, string>, table: map<string, bool>, login: bool) returns (env: seq<string>)
    ensures IsChildEnv(env, secrets, table, login)
  {
    var sanitized := new SanitizedEnviron(login);
    ghost var names: seq<string> := [];
    var remaining := secrets.Keys;
    while remaining != {}
      invariant remaining <= secrets.Keys && sanitized.login == login
      invariant Enumerates(names, AllowedNames(secrets - remaining, table, login))
      invariant EntriesFor(names, secrets, sanitized.env)
      decreases remaining
    {
      var name :| name in remaining;
      ghost var before := AllowedNames(secrets - remaining, table, login);
      sanitized.Append(table, name, secrets[name]);
      remaining := remaining - {name};
      ghost var after := AllowedNames(secrets - remaining, table, login);
      if Allowed(table, login, name) {
        EnumeratesOneMore(names, before, name);
        names := names + [name];
        assert after == before + {name};
      } else {
        assert after == before;
      }
    }
    assert secrets - {} == secrets;
    env := sanitized.env;
  }

  /** The child gets exactly the allowed names, each once, whatever the order of iteration. */
  method BuildEnv(secrets: map<string, string>, passthrough: string, login: bool) returns (env: seq<string>)
    ensures IsChildEnv(env, secrets, SanitizeTable - Passed(passthrough, login), login)
  {
    var table := DropPassed(SanitizeTable, passthrough, login);
    env := AppendAll(secrets, table, login);
  }

  // The comma-separated list names this variable, blanks around it apart.
  predicate ListedIn(passthrough: string, name: string) {
    exists k :: 0 <= k < |Split(passthrough, ',')| && TrimSpace(Split(passthrough, ',')[k]) == name
  }

  lemma PassedMeaning(passthrough: string, login: bool, name: string)
    requires name != ""
    ensures name in Passed(passthrough, login) <==>
      ListedIn(passthrough, name) || (login && name == TrimSpace("VAULT_TOKEN"))
  {
    hide TrimSpace, Split;
    var parts := Split(passthrough, ',');
    var all := parts + if login then ["VAULT_TOKEN"] else [];
    if name in Trimmed(all) {
      var one :| one in all && TrimSpace(one) == name;
      assert one !in parts ==> login && one == "VAULT_TOKEN";
    }
    if login { assert all[|parts|] == "VAULT_TOKEN"; }
    forall k | 0 <= k < |parts| && TrimSpace(parts[k]) == name ensures name in Trimmed(all) {
      assert all[k] == parts[k];
    }
  }

  /** Which variables reach the child: those that are not held back, those that the user lists, and in
      the login case those that are held back only without one; and then the token in any case. */
  lemma AllowedExactly(passthrough: string, login: bool, name: string)
    requires name != ""
    ensures Allowed(SanitizeTable - Passed(passthrough, login), login, name) <==>
      || name !in SanitizeTable
      || ListedIn(passthrough, name)
      || (login && (SanitizeTable[name] || name == "VAULT_TOKEN"))
  {
    PassedMeaning(passthrough, login, name);
    TokenTrimmed();
    hide SanitizeTable, TrimSpace, Split;
  }

  lemma TokenTrimmed()
    ensures TrimSpace("VAULT_TOKEN") == "VAULT_TOKEN"
  {
    TrimStep("VAULT_TOKEN");
    SpaceCodes("VAULT_TOKEN"[0]);
    SpaceCodes("VAULT_TOKEN"[10]);
  }

  // Another allowed name that an entry of `name` could be read as, being its beginning up to a `=`.
  predicate Shadowed(secrets: map<string, string>, table: map<string, bool>, login: bool, name: string) {
    exists other :: other in secrets && Allowed(table, login, other) && HasPrefix(other, name + "=")
  }

  lemma PrefixSeparates(own: string, name: string)
    ensures HasPrefix(own, name + "=") <==> |name| < |own| && own[..|name|] == name && own[|name|] == '='
  {
    if |name| < |own| {
      assert own[0..|name| + 1] == own[..|name|] + [own[|name|]];
    }
  }

  // Which entries are read as entries of a name without `=`.
  lemma HeadOfEntry(name: string, own: string, value: string)
    requires '=' !in name
    ensures SplitN(own + "=" + value, '=', 2)[0] == name <==> own == name || HasPrefix(own, name + "=")
  {
    PrefixSeparates(own, name);
    assert own[0..|own|] == own;
    var i := IndexFrom(own, '=', 0);
    assert own[0..i] == own[..i];
    if i == |own| {
      SplitNRoundTrip(own, '=', value);
    } else {
      var rest := own[i + 1..] + "=" + value;
      assert own + "=" + value == own[..i] + ['='] + rest;
      SplitNRoundTrip(own[..i], '=', rest);
      if |name| < |own| && own[..|name|] == name && own[|name|] == '=' {
        assert own[0..|name|] == name;
        IndexFromIs(own, '=', 0, |name|);
      }
    }
  }

  /** Reading the child environment back: an allowed name has an entry that splits at the first `=`
      into the name and its value.  This is the only entry read under the name, and a name that is
      not allowed has none, exactly if no other allowed name begins with the name and a `=`. */
  lemma ChildEnvMeaning(env: seq<string>, secrets: map<string, string>, table: map<string, bool>, login: bool,
                        name: string)
    requires IsChildEnv(env, secrets, table, login) && '=' !in name
    ensures name in secrets && Allowed(table, login, name) ==>
      exists i :: 0 <= i < |env| && SplitN(env[i], '=', 2) == [name, secrets[name]]
        && ((forall j | 0 <= j < |env| && SplitN(env[j], '=', 2)[0] == name :: j == i)
            <==> !Shadowed(secrets, table, login, name))
    ensures !(name in secrets && Allowed(table, login, name)) ==>
      ((forall j | 0 <= j < |env| :: SplitN(env[j], '=', 2)[0] != name) <==> !Shadowed(secrets, table, login, name))
  {
    var allowed := AllowedNames(secrets, table, login);
    var names :| Enumerates(names, allowed) && EntriesFor(names, secrets, env);
    forall j | 0 <= j < |env|
      ensures names[j] in allowed
      ensures SplitN(env[j], '=', 2)[0] == name <==> names[j] == name || HasPrefix(names[j], name + "=")
    {
      assert names[j] in set n | n in names;
      HeadOfEntry(name, names[j], secrets[names[j]]);
      assert env[j] == names[j] + "=" + secrets[names[j]];
    }
    NamesShadow(names, secrets, table, login, name);
    assert !HasPrefix(name, name + "=");
    if name in allowed {
      assert name in set n | n in names;
      var i :| 0 <= i < |names| && names[i] == name;
      SplitNRoundTrip(name, '=', secrets[name]);
      assert env[i] == name + ['='] + secrets[name];
      assert forall j | 0 <= j < |env| :: names[j] == name <==> j == i;
    }
  }

  lemma NamesShadow(names: seq<string>, secrets: map<string, string>, table: map<string, bool>, login: bool,
                    name: string)
    requires Enumerates(names, AllowedNames(secrets, table, login))
    ensures Shadowed(secrets, table, login, name) <==> exists j :: 0 <= j < |names| && HasPrefix(names[j], name + "=")
  {
    forall other ensures other in names <==> other in secrets && Allowed(table, login, other) {
      assert other in AllowedNames(secrets, table, login) <==> other in set n | n in names;
    }
  }

  /** From references and paths to the child: the entry of an allowed name carries the value of the
      last path that holds the name, and otherwise that of the resolved variable. */
  lemma ChildValue(w: World, cfg: Config, rd: Reader, st: State, environ: map<string, string>, order: seq<string>,
                   entries: seq<string>,
                   secrets: map<string, string>, env: seq<string>, table: map<string, bool>, login: bool, name: string)
    requires forall n | n in order :: n in environ
    requires Resolves(w, cfg, st, environ, order, entries, secrets)
    requires Serves(w, ResolveAll(w, cfg, st, environ, order, map[]).0.log, rd, EntryPlaces(entries))
    requires IsChildEnv(env, secrets, table, login) && '=' !in name && Allowed(table, login, name)
    ensures var variables := ResolveAll(w, cfg, st, environ, order, map[]).1.value;
      match LastDelivery(w, cfg, rd, entries, name)
      case Some(v) => Carries(env, name, v)
      case None => name in variables ==> Carries(env, name, variables[name])
    ensures var variables := ResolveAll(w, cfg, st, environ, order, map[]).1.value;
      LastDelivery(w, cfg, rd, entries, name).None? && name !in variables && !Shadowed(secrets, table, login, name) ==>
        forall j | 0 <= j < |env| :: SplitN(env[j], '=', 2)[0] != name
  {
    var (mid, res) := ResolveAll(w, cfg, st, environ, order, map[]);
    PathsMeaning(w, cfg, rd, mid, entries, res.value);
    assert Delivered(w, cfg, rd, entries, res.value, secrets, name);
    ChildEnvMeaning(env, secrets, table, login, name);
  }

  predicate Carries(env: seq<string>, name: string, value: string) {
    exists i :: 0 <= i < |env| && SplitN(env[i], '=', 2) == [name, value]
  }

  /** For a name that is not an update, and as long as the environment's own writes do not change what
      is watched, that value is what a direct read gives. */
  lemma ChildValueDirect(w: World, cfg: Config, rd: Reader, st: State, environ: map<string, string>, order: seq<string>,
                         entries: seq<string>,
                         secrets: map<string, string>, env: seq<string>, table: map<string, bool>, login: bool,
                         name: string)
    requires Steady(w, rd, st.log, OwnWrites(w, environ), WatchedPlaces(environ, entries))
    requires st.cache == map[] && Separated(environ)
    requires Enumerates(order, environ.Keys) && (forall n | n in order :: n in environ)
    requires Resolves(w, cfg, st, environ, order, entries, secrets)
    requires IsChildEnv(env, secrets, table, login) && '=' !in name && Allowed(table, login, name)
    requires name !in UpdateNames(environ)
    ensures match View(w, cfg, rd, Watched(environ), entries, name)
      case Some(v) => Carries(env, name, v)
      case None =>
        !Shadowed(secrets, table, login, name) ==> forall j | 0 <= j < |env| :: SplitN(env[j], '=', 2)[0] != name
  {
    StartupView(w, cfg, rd, st, environ, order, entries, secrets);
    assert At(secrets, name) == View(w, cfg, rd, Watched(environ), entries, name);
    ChildEnvMeaning(env, secrets, table, login, name);
  }

  // ---------------------------------------------------------------------------------------
  // Startup and the ticks of the watcher.
  // ---------------------------------------------------------------------------------------

  // IsValidPrefix
  predicate IsValidPrefix(value: string) {
    HasPrefix(value, Marker) || HasPrefix(value, ">>" + Marker)
  }

  predicate Pollable(env: map<string, string>, envFromPath: string) {
    || envFromPath != ""
    || exists name | name in Watched(env) :: IsValidPrefix(env[name]) || HasInline(env[name])
  }

  /** What is watched, in words of the values: a value is left out exactly if it, or one of its
      matches, begins with the mark of an update; there is something to watch exactly if a path is
      configured, or a value that is not left out begins like a reference or holds one. */
  lemma WatchMeaning(env: map<string, string>, envFromPath: string)
    ensures forall name :: name in Watched(env) <==> name in env && !MarksUpdate(env[name])
    ensures forall name | name in Watched(env) :: Watched(env)[name] == env[name]
    ensures forall name | name in env && !Contains(env[name], ">>") :: name in Watched(env)
    ensures Pollable(env, envFromPath) <==>
      || envFromPath != ""
      || exists name :: name in Watched(env) && LooksLikeReference(Watched(env)[name])
  {
    hide IsUpdateReference, MarksUpdate;
    forall name | name in env
      ensures IsUpdateReference(env[name]) <==> MarksUpdate(env[name])
      ensures !Contains(env[name], ">>") ==> !IsUpdateReference(env[name])
      ensures !IsUpdateReference(env[name]) ==>
        (IsValidPrefix(env[name]) || HasInline(env[name]) <==> LooksLikeReference(env[name]))
    {
      MarkMeaning(env[name]);
    }
  }

  lemma MarkMeaning(value: string)
    ensures IsUpdateReference(value) <==> MarksUpdate(value)
    ensures !Contains(value, ">>") ==> !IsUpdateReference(value)
    ensures !IsUpdateReference(value) ==>
      (IsValidPrefix(value) || HasInline(value) <==> LooksLikeReference(value))
  {
    hide FindAll;
    References.GuardMeaning(value);
    assert ">>" + Marker == ">>secrets-store:";
    if !Contains(value, ">>") { References.WithoutMarkWatched(value); }
  }

  predicate MarksUpdate(value: string) {
    || OccursAt(">>secrets-store:", value, 0)
    || exists m :: m in FindAll(value) && OccursAt("${>>", value, m.start)
  }

  predicate LooksLikeReference(value: string) {
    OccursAt("secrets-store:", value, 0) || FindAll(value) != []
  }

  // Everything is resolved into one map, in which a path overrides a variable.
  method ResolveSecrets(injector: SecretInjector, environ: map<string, string>, envFromPath: string, ghost bound: nat)
    returns (ok: bool, secretsSet: map<string, string>, ghost order: seq<string>)
    requires forall name | name in environ :: |environ[name]| <= bound
    modifies injector, injector.client
    ensures NoDup(order) && forall name | name in order :: name in environ
    ensures ok ==> Enumerates(order, environ.Keys)
    ensures ok <==> Succeeds(injector.w, injector.cfg, old(injector.Current()), environ, order, Entries(envFromPath))
    ensures ok ==>
      Resolves(injector.w, injector.cfg, old(injector.Current()), environ, order, Entries(envFromPath), secretsSet)
    ensures injector.Current() ==
      LastState(injector.w, injector.cfg, old(injector.Current()), environ, order, Entries(envFromPath))
  {
    var sink := new SecretSet();
    ok, order := injector.InjectSecretsFromVault(environ, sink, bound);
    ghost var mid := injector.Current();
    if ok && envFromPath != "" {
      ghost var out := sink.entries;
      ok := injector.InjectSecretsFromVaultPath(envFromPath, sink);
      assert injector.Current() == ResolvePaths(injector.w, injector.cfg, mid, Entries(envFromPath), out).0;
    }
    secretsSet := sink.entries;
    ghost var st := old(injector.Current());
    assert ResolveAll(injector.w, injector.cfg, st, environ, order, map[]).0 == mid;
    assert injector.Current() == LastState(injector.w, injector.cfg, st, environ, order, Entries(envFromPath));
  }

  /** The templates that will be polled and the digest they are compared with. */
  method PrepareWatch(templateEnviron: map<string, string>, secretsSet: map<string, string>, envFromPath: string,
                      h: Hash)
    returns (watchedTemplates: map<string, string>, initialHash: string, watch: bool)
    ensures watchedTemplates == Watched(templateEnviron)
    ensures IsDigest(h, Baseline(secretsSet, templateEnviron), initialHash)
    ensures watch <==> Pollable(templateEnviron, envFromPath)
    ensures forall name | name in templateEnviron && !Contains(templateEnviron[name], ">>") ::
      name in watchedTemplates && watchedTemplates[name] == templateEnviron[name]
    ensures watch <==>
      envFromPath != "" || exists name :: name in watchedTemplates && LooksLikeReference(watchedTemplates[name])
  {
    hide IsUpdateReference, HasInline, IsValidPrefix, LooksLikeReference, Contains, Watched, Baseline, Pollable;
    watchedTemplates := map[];
    var baseline := secretsSet;
    watch := envFromPath != "";
    var remaining := templateEnviron.Keys;
    NoneYet(secretsSet, envFromPath);
    assert templateEnviron - remaining == map[];
    while remaining != {}
      invariant remaining <= templateEnviron.Keys
      invariant watchedTemplates == Watched(templateEnviron - remaining)
      invariant baseline == Baseline(secretsSet, templateEnviron - remaining)
      invariant watch <==> Pollable(templateEnviron - remaining, envFromPath)
      decreases remaining
    {
      var name :| name in remaining;
      var value := templateEnviron[name];
      ghost var done := templateEnviron - remaining;
      assert templateEnviron - (remaining - {name}) == done[name := value];
      OneMore(done, name, value, secretsSet, envFromPath);
      if IsUpdateReference(value) {
        baseline := baseline - {name};
      } else {
        watchedTemplates := watchedTemplates[name := value];
        if IsValidPrefix(value) || HasInline(value) {
          watch := true;
        }
      }
      remaining := remaining - {name};
    }
    assert templateEnviron - {} == templateEnviron;
    initialHash := ComputeSecretsHash(baseline, h);
    WatchMeaning(templateEnviron, envFromPath);
  }

  lemma NoneYet(secrets: map<string, string>, envFromPath: string)
    ensures Watched(map[]) == map[] && Baseline(secrets, map[]) == secrets
    ensures Pollable(map[], envFromPath) <==> envFromPath != ""
  {
    assert UpdateNames(map[]) == {};
  }

  lemma OneMore(done: map<string, string>, name: string, value: string, secrets: map<string, string>,
                envFromPath: string)
    requires name !in done
    ensures var next := done[name := value];
      if IsUpdateReference(value) then
        && Watched(next) == Watched(done) && Baseline(secrets, next) == Baseline(secrets, done) - {name}
        && (Pollable(next, envFromPath) <==> Pollable(done, envFromPath))
      else
        && Watched(next) == Watched(done)[name := value] && Baseline(secrets, next) == Baseline(secrets, done)
        && (Pollable(next, envFromPath) <==> Pollable(done, envFromPath) || IsValidPrefix(value) || HasInline(value))
  {
    hide IsUpdateReference, HasInline, IsValidPrefix;
    var next := done[name := value];
    assert UpdateNames(next) == UpdateNames(done) + if IsUpdateReference(value) then {name} else {};
    if !IsUpdateReference(value) {
      assert Watched(next) == Watched(done)[name := value];
      assert Watched(next)[name] == value;
    }
  }

  // What a poll of these templates and paths reads.
  function PolledPlaces(templates: map<string, string>, envFromPath: string): set<Place> {
    AllPlaces(templates) + EntryPlaces(Entries(envFromPath))
  }

  /** One tick: a fresh injector, without lease renewal, over a fresh copy of the templates.  It
      writes nothing unless what it reaches can write.  For templates without writes, its digest is
      that of the values that the store has now. */
  method Poll(w: World, cfg: Config, client: Client, templates: map<string, string>, envFromPath: string, h: Hash,
              ghost bound: nat, ghost rd: Reader)
    returns (ok: bool, newHash: string, ghost polled: map<string, string>, ghost order: seq<string>)
    requires forall name | name in templates :: |templates[name]| <= bound
    modifies client
    ensures NoDup(order) && forall name | name in order :: name in templates
    ensures !CanWrite(w.parseJson, cfg.ignoreMissing, AllLeaves(templates, order), {}) ==> client.log == old(client.log)
    ensures AllReadOnly(templates) && Serves(w, old(client.log), rd, PolledPlaces(templates, envFromPath)) ==>
      && client.log == old(client.log)
      && (ok <==> Resolvable(w, cfg.(daemon := false), rd, templates, Entries(envFromPath)))
      && (ok ==>
           && IsDigest(h, polled, newHash)
           && forall key :: At(polled, key) == View(w, cfg.(daemon := false), rd, templates, Entries(envFromPath), key))
  {
    var pollInjector := new SecretInjector(w, cfg.(daemon := false), client);
    ghost var st := pollInjector.Current();
    var secretsSet;
    ok, secretsSet, order := ResolveSecrets(pollInjector, templates, envFromPath, bound);
    polled := secretsSet;
    LastStateIsLeaves(w, cfg.(daemon := false), st, templates, order, Entries(envFromPath));
    if !CanWrite(w.parseJson, cfg.ignoreMissing, AllLeaves(templates, order), {}) {
      NoWrite(w, cfg.(daemon := false), st, AllLeaves(templates, order), {});
    }
    if AllReadOnly(templates) && Serves(w, old(client.log), rd, PolledPlaces(templates, envFromPath)) {
      PollOutcome(w, cfg.(daemon := false), rd, st, templates, order, Entries(envFromPath));
      if ok {
        PollView(w, cfg.(daemon := false), rd, st, templates, order, Entries(envFromPath));
      }
    }
    if ok {
      newHash := ComputeSecretsHash(secretsSet, h);
    } else {
      newHash := "";
    }
  }

  // No reference fails, and no path does.
  predicate Resolvable(w: World, cfg: Config, rd: Reader, refs: map<string, string>, entries: seq<string>) {
    (forall name | name in refs :: !Fails(w, cfg, rd, refs, name)) && PathsFine(w, cfg, rd, entries)
  }

  /** A poll succeeds exactly when everything can be resolved directly; also one that fails
      half-way has written nothing. */
  lemma PollOutcome(w: World, cfg: Config, rd: Reader, st: State, refs: map<string, string>, order: seq<string>,
                    entries: seq<string>)
    requires Serves(w, st.log, rd, AllPlaces(refs) + EntryPlaces(entries)) && st.cache == map[] && AllReadOnly(refs)
    requires NoDup(order) && forall name | name in order :: name in refs
    requires Succeeds(w, cfg, st, refs, order, entries) ==> Enumerates(order, refs.Keys)
    ensures LastState(w, cfg, st, refs, order, entries).log == st.log
    ensures Succeeds(w, cfg, st, refs, order, entries) <==> Resolvable(w, cfg, rd, refs, entries)
  {
    var f := Reading(st.log, AllPlaces(refs));
    ReadingHolds(w, rd, st.log, AllPlaces(refs));
    AllUndisturbed(w, refs, f);
    RunAgrees(w, cfg, rd, f, st, refs, order, map[]);
    var (mid, res) := ResolveAll(w, cfg, st, refs, order, map[]);
    if res.Some? {
      PathsMeaning(w, cfg, rd, mid, entries, res.value);
    }
    if Succeeds(w, cfg, st, refs, order, entries) {
      OrderIndependence(w, cfg, rd, AllPlaces(refs), st, refs, order);
    }
  }

  /** From startup to any later poll.  While everything that is polled, and the token, answer as they
      did, and whatever else has happened to the store, the poll succeeds in every order of iteration,
      writes nothing, and finds the digest of the baseline if and only if no update-style variable is
      delivered by a path. */
  lemma QuietExactly(h: Hash, w: World, cfg: Config, rd: Reader, st: State, env: map<string, string>,
                     order: seq<string>, entries: seq<string>, secrets: map<string, string>, initialHash: string,
                     w': World, rd': Reader, st': State, order': seq<string>)
    returns (polled: map<string, string>)
    requires Steady(w, rd, st.log, OwnWrites(w, env), WatchedPlaces(env, entries))
    requires st.cache == map[] && Separated(env)
    requires Enumerates(order, env.Keys) && (forall name | name in order :: name in env)
    requires Resolves(w, cfg, st, env, order, entries, secrets)
    requires IsDigest(h, Baseline(secrets, env), initialHash)
    requires SameAnswers(w, rd, w', rd', WatchedPlaces(env, entries))
    requires Serves(w', st'.log, rd', WatchedPlaces(env, entries)) && st'.cache == map[]
    requires Enumerates(order', Watched(env).Keys) && (forall name | name in order' :: name in Watched(env))
    ensures var cfg' := cfg.(daemon := false);
      && Succeeds(w', cfg', st', Watched(env), order', entries)
      && LastState(w', cfg', st', Watched(env), order', entries).log == st'.log
      && Resolves(w', cfg', st', Watched(env), order', entries, polled)
    ensures
      ShortFields(Baseline(secrets, env)) && ShortFields(polled) && TellsApart(h, Baseline(secrets, env), polled) ==>
      forall newHash | IsDigest(h, polled, newHash) ::
        newHash == initialHash <==> forall name | name in UpdateNames(env) :: !DeliveredBy(w, cfg, rd, entries, name)
  {
    var cfg' := cfg.(daemon := false);
    StartupView(w, cfg, rd, st, env, order, entries, secrets);
    PollResolvable(w, cfg, rd, w', rd', env, entries);
    PollOutcome(w', cfg', rd', st', Watched(env), order', entries);
    PollView(w', cfg', rd', st', Watched(env), order', entries);
    var (mid, res) := ResolveAll(w', cfg', st', Watched(env), order', map[]);
    polled := ResolvePaths(w', cfg', mid, entries, res.value).1.value;
    if ShortFields(Baseline(secrets, env)) && ShortFields(polled) && TellsApart(h, Baseline(secrets, env), polled) {
      forall newHash | IsDigest(h, polled, newHash)
        ensures newHash == initialHash
          <==> forall name | name in UpdateNames(env) :: !DeliveredBy(w, cfg, rd, entries, name)
      {
        DigestsAgreeExactly(h, w, cfg, rd, st, env, order, entries, secrets, w', rd', polled, initialHash, newHash);
      }
    }
  }

  // What could be resolved at startup can be resolved again.
  lemma PollResolvable(w: World, cfg: Config, rd: Reader, w': World, rd': Reader, env: map<string, string>,
                       entries: seq<string>)
    requires SameAnswers(w, rd, w', rd', WatchedPlaces(env, entries)) && PathsFine(w, cfg, rd, entries)
    requires forall name | name in Watched(env) :: !Direct(w, cfg, rd, name, env[name]).Error?
    ensures Resolvable(w', cfg.(daemon := false), rd', Watched(env), entries)
  {
    DeliveriesSame(w, cfg, rd, w', rd', entries, "");
    forall name | name in Watched(env) ensures !Fails(w', cfg.(daemon := false), rd', Watched(env), name) {
      PlacesIn(Watched(env), name);
      DirectSame(w, cfg, rd, w', rd', name, env[name]);
    }
  }
}
