/** The baseline that is taken at startup and the polls that are compared with it. */
module Watch {
  import opened Strings
  import opened Pattern
  import opened Vault
  import opened Resolver
  import opened Runs
  import opened Writes
  import opened Digest

  function Entries(envFromPath: string): seq<string> {
    if envFromPath == "" then [] else Split(envFromPath, ',')
  }

  /** The paths are what stands between the commas; none if there is nothing. */
  lemma EntriesMeaning(envFromPath: string)
    ensures Entries("") == []
    ensures envFromPath != "" ==>
      var paths := Entries(envFromPath);
      && paths != [] && (forall k | 0 <= k < |paths| :: ',' !in paths[k])
      && Join(paths, ',') == envFromPath
  {
    SplitMeaning(envFromPath, ',');
    var paths := Split(envFromPath, ',');
    assert PartsFree(paths, ',', |paths|);
  }

  function UpdateNames(env: map<string, string>): set<string> {
    set name | name in env && IsUpdateReference(env[name])
  }

  function Watched(env: map<string, string>): map<string, string> {
    env - UpdateNames(env)
  }

  function Baseline(secrets: map<string, string>, env: map<string, string>): map<string, string> {
    secrets - UpdateNames(env)
  }

  function At(m: map<string, string>, key: string): Option<string> {
    if key in m then Some(m[key]) else None
  }

  // The value that a key of the result map is meant to have.
  function View(w: World, cfg: Config, rd: Reader, refs: map<string, string>, entries: seq<string>,
                key: string): Option<string>
  {
    match LastDelivery(w, cfg, rd, entries, key)
    case Some(v) => Some(v)
    case None =>
      if key in refs && Direct(w, cfg, rd, key, refs[key]).Resolved? then Some(Direct(w, cfg, rd, key, refs[key]).text)
      else None
  }

  // ---------------------------------------------------------------------------------------
  // Startup and poll, as runs of the resolver.
  // ---------------------------------------------------------------------------------------

  // A successful resolution of `refs` followed by the paths.
  ghost predicate Resolves(w: World, cfg: Config, st: State, refs: map<string, string>, order: seq<string>,
                           entries: seq<string>, out: map<string, string>)
    requires forall name | name in order :: name in refs
  {
    var (mid, res) := ResolveAll(w, cfg, st, refs, order, map[]);
    res.Some? && ResolvePaths(w, cfg, mid, entries, res.value).1 == Some(out)
  }

  // Cache keys that any write of the environment may fill.
  function DirtyKeys(env: map<string, string>): set<string> {
    set name, key | name in env && key in UpdateKeysOf(Plains(name, env[name])) :: key
  }

  // Watched references are free of nested updates and share no cache key with a write.
  predicate Separated(env: map<string, string>) {
    forall name | name in Watched(env) :: Separate(name, env[name], DirtyKeys(env))
  }

  // The writes that resolving the environment may issue.
  function OwnWrites(w: World, env: map<string, string>): set<Write> {
    set name, op | name in env && op in WritesOf(w, Plains(name, env[name])) :: op
  }

  // Everything that is polled: what watched references look up, and the paths.
  function WatchedPlaces(env: map<string, string>, entries: seq<string>): set<Place> {
    AllPlaces(Watched(env)) + EntryPlaces(entries)
  }

  function StartupFrame(w: World, st: State, env: map<string, string>, entries: seq<string>): Frame {
    Frame(st.log, OwnWrites(w, env), WatchedPlaces(env, entries), DirtyKeys(env))
  }

  lemma EnvironmentAccounted(w: World, st: State, env: map<string, string>, entries: seq<string>)
    requires Separated(env)
    ensures var f := StartupFrame(w, st, env, entries);
      AllAccounted(w, env, f) && forall name | name in Watched(env) :: Undisturbed(name, env[name], f)
  {
    var f := StartupFrame(w, st, env, entries);
    forall name | name in env ensures Accounted(w, name, env[name], f) {
      assert forall key | key in UpdateKeysOf(Plains(name, env[name])) :: key in f.dirty;
      assert forall op | op in WritesOf(w, Plains(name, env[name])) :: op in f.own;
    }
    forall name | name in Watched(env) ensures Undisturbed(name, env[name], f) {
      PlacesIn(Watched(env), name);
    }
  }

  /** What startup leaves in the result map, for every name that is not an update: writes of the
      environment run in between, in any order, and make no difference as long as they do not change
      what a watched reference or a path reads. */
  lemma StartupView(w: World, cfg: Config, rd: Reader, st: State, env: map<string, string>, order: seq<string>,
                    entries: seq<string>,
                    out: map<string, string>)
    requires Steady(w, rd, st.log, OwnWrites(w, env), WatchedPlaces(env, entries)) && st.cache == map[]
    requires Separated(env)
    requires Enumerates(order, env.Keys) && (forall name | name in order :: name in env)
    requires Resolves(w, cfg, st, env, order, entries, out)
    ensures PathsFine(w, cfg, rd, entries)
    ensures forall name | name in Watched(env) :: !Direct(w, cfg, rd, name, env[name]).Error?
    ensures forall key | key !in UpdateNames(env) :: At(out, key) == View(w, cfg, rd, Watched(env), entries, key)
  {
    var f := StartupFrame(w, st, env, entries);
    EnvironmentAccounted(w, st, env, entries);
    RunAgrees(w, cfg, rd, f, st, env, order, map[]);
    var (mid, res) := ResolveAll(w, cfg, st, env, order, map[]);
    assert Serves(w, mid.log, rd, f.at);
    PathsMeaning(w, cfg, rd, mid, entries, res.value);
    forall name | name in Watched(env)
      ensures name in order && Agrees(w, cfg, rd, env, res.value, name) && !Fails(w, cfg, rd, env, name)
    {
      assert name in set n | n in order;
    }
    forall key | key !in UpdateNames(env)
      ensures At(out, key) == View(w, cfg, rd, Watched(env), entries, key)
    {
      assert Delivered(w, cfg, rd, entries, res.value, out, key);
      if key !in env { assert key !in set n | n in order; }
    }
  }

  /** What a poll sees: it starts from an empty cache, reads only, and writes nothing. */
  lemma PollView(w: World, cfg: Config, rd: Reader, st: State, refs: map<string, string>, order: seq<string>,
                 entries: seq<string>)
    requires Serves(w, st.log, rd, AllPlaces(refs) + EntryPlaces(entries)) && st.cache == map[] && AllReadOnly(refs)
    requires Enumerates(order, refs.Keys) && forall name | name in order :: name in refs
    ensures var (mid, res) := ResolveAll(w, cfg, st, refs, order, map[]);
      && mid.log == st.log
      && (res.Some? ==>
           var (last, out) := ResolvePaths(w, cfg, mid, entries, res.value);
           && last.log == st.log
           && (out.Some? ==>
                PathsFine(w, cfg, rd, entries) &&
                forall key :: At(out.value, key) == View(w, cfg, rd, refs, entries, key)))
  {
    OrderIndependence(w, cfg, rd, AllPlaces(refs), st, refs, order);
    var (mid, res) := ResolveAll(w, cfg, st, refs, order, map[]);
    if res.Some? {
      PathsMeaning(w, cfg, rd, mid, entries, res.value);
      var (last, out) := ResolvePaths(w, cfg, mid, entries, res.value);
      if out.Some? {
        forall key ensures At(out.value, key) == View(w, cfg, rd, refs, entries, key) {
          assert Delivered(w, cfg, rd, entries, res.value, out.value, key);
        }
      }
    }
  }

  // ---------------------------------------------------------------------------------------
  // When a poll restarts the process.
  // ---------------------------------------------------------------------------------------

  lemma CompareByView(a: map<string, string>, b: map<string, string>, f: string -> Option<string>,
                      g: string -> Option<string>)
    requires forall key :: At(a, key) == f(key)
    requires forall key :: At(b, key) == g(key)
    ensures a == b <==> forall key :: f(key) == g(key)
  {
    if forall key :: f(key) == g(key) {
      forall key ensures key in a <==> key in b
                 ensures key in a ==> a[key] == b[key]
      {
        assert At(a, key) == At(b, key);
      }
    }
  }

  // What the baseline holds under a key.
  function BaselineView(w: World, cfg: Config, rd: Reader, env: map<string, string>, entries: seq<string>,
                        key: string): Option<string>
  {
    if key in UpdateNames(env) then None else View(w, cfg, rd, Watched(env), entries, key)
  }

  /** A poll leaves the process alone if and only if every key has the value it had in the
      baseline. */
  lemma RestartExactly(h: Hash,
                       w: World, cfg: Config, rd: Reader, env: map<string, string>, entries: seq<string>,
                       secrets: map<string, string>,
                       w': World, cfg': Config, rd': Reader, polled: map<string, string>, initialHash: string,
                       newHash: string)
    requires PathsFine(w, cfg, rd, entries) && PathsFine(w', cfg', rd', entries)
    requires forall key | key !in UpdateNames(env) :: At(secrets, key) == View(w, cfg, rd, Watched(env), entries, key)
    requires forall key :: At(polled, key) == View(w', cfg', rd', Watched(env), entries, key)
    requires IsDigest(h, Baseline(secrets, env), initialHash) && IsDigest(h, polled, newHash)
    requires ShortFields(Baseline(secrets, env)) && ShortFields(polled) && TellsApart(h, Baseline(secrets, env), polled)
    ensures newHash == initialHash <==>
      forall key :: BaselineView(w, cfg, rd, env, entries, key) == View(w', cfg', rd', Watched(env), entries, key)
  {
    var baseline := Baseline(secrets, env);
    var f := key => BaselineView(w, cfg, rd, env, entries, key);
    var g := key => View(w', cfg', rd', Watched(env), entries, key);
    DigestComparesMaps(h, baseline, polled, initialHash, newHash);
    forall key ensures At(baseline, key) == f(key) {
      BaselineAt(secrets, env, key);
    }
    CompareByView(baseline, polled, f, g);
    assert forall key :: f(key) == BaselineView(w, cfg, rd, env, entries, key);
    assert forall key :: g(key) == View(w', cfg', rd', Watched(env), entries, key);
  }

  lemma BaselineAt(secrets: map<string, string>, env: map<string, string>, key: string)
    ensures At(Baseline(secrets, env), key) == if key in UpdateNames(env) then None else At(secrets, key)
  {
  }

  // These places and the token answer as they did at startup.
  ghost predicate SameAnswers(w: World, rd: Reader, w': World, rd': Reader, at: set<Place>) {
    && (forall p | p in at :: rd(p.path, p.argument) == rd'(p.path, p.argument))
    && w.token == w'.token && w.toText == w'.toText && w.toMap == w'.toMap && w.render == w'.render
  }

  // Polling sets up no lease renewal, which at startup can only have failed or made no difference.
  lemma TakenSame(w: World, cfg: Config, rd: Reader, w': World, rd': Reader, p: Place)
    requires SameAnswers(w, rd, w', rd', {p}) && !Taken(w, cfg, p.path, rd(p.path, p.argument)).Fault?
    ensures Taken(w', cfg.(daemon := false), p.path, rd'(p.path, p.argument)) ==
      Taken(w, cfg, p.path, rd(p.path, p.argument))
  {
    assert p in {p};
  }

  lemma {:induction false} DirectSame(w: World, cfg: Config, rd: Reader, w': World, rd': Reader, name: string,
                                      value: string)
    requires SameAnswers(w, rd, w', rd', PlacesOf(Plains(name, value))) && !Direct(w, cfg, rd, name, value).Error?
    ensures Direct(w', cfg.(daemon := false), rd', name, value) == Direct(w, cfg, rd, name, value)
    decreases |value|
  {
    var cfg' := cfg.(daemon := false);
    if !HasInline(value) {
      var p := ParsePlain(name, value);
      assert p in Plains(name, value);
      if p.Lookup? {
        assert Place(p.path, p.argument) in PlacesOf(Plains(name, value));
        TakenSame(w, cfg, rd, w', rd', Place(p.path, p.argument));
      }
    } else {
      var texts := Substitution.Texts(value, FindAll(value));
      var own, own' := Own(w, cfg, rd, name, value), Own(w', cfg', rd', name, value);
      NoErrorInside(value, texts, own);
      forall k | 0 <= k < |texts| ensures own(texts[k]) == own'(texts[k]) {
        var m := FindAll(value)[k];
        assert m in FindAll(value) && texts[k] == m.Text(value) && texts[k] in texts;
        OwnOfSpan(w, cfg, rd, name, value, m);
        OwnOfSpan(w', cfg', rd', name, value, m);
        BodyPlains(name, value, m);
        assert PlacesOf(Plains(name, m.Body(value))) <= PlacesOf(Plains(name, value));
        DirectSame(w, cfg, rd, w', rd', name, m.Body(value));
      }
      SplicedSame(value, texts, own, own');
    }
  }

  lemma NoErrorInside(cur: string, texts: seq<string>, own: string -> Outcome)
    requires "" !in texts && !Spliced(cur, texts, own).Error?
    ensures forall t | t in texts :: !own(t).Error?
  {
  }

  lemma SplicedSame(cur: string, texts: seq<string>, own: string -> Outcome, own': string -> Outcome)
    requires "" !in texts && forall t | t in texts :: own(t) == own'(t)
    ensures Spliced(cur, texts, own) == Spliced(cur, texts, own')
  {
    SpliceSame(cur, texts, Values(own), Values(own'));
  }

  lemma {:induction false} SpliceSame(cur: string, texts: seq<string>, f: Substitution.Valuation,
                                      g: Substitution.Valuation)
    requires "" !in texts && forall t | t in texts :: f(t) == g(t)
    ensures Substitution.Splice(cur, texts, f) == Substitution.Splice(cur, texts, g)
    decreases |texts|
  {
    if texts != [] {
      assert texts[0] in texts;
      var next := match f(texts[0]) case None => cur case Some(v) => ReplaceAll(cur, texts[0], v);
      SpliceSame(next, texts[1..], f, g);
    }
  }

  lemma PathSame(w: World, cfg: Config, rd: Reader, w': World, rd': Reader, entry: string)
    requires SameAnswers(w, rd, w', rd', {PlaceOf(entry)}) && !PathData(w, cfg, rd, entry).Fault?
    ensures PathData(w', cfg.(daemon := false), rd', entry) == PathData(w, cfg, rd, entry)
  {
    TakenSame(w, cfg, rd, w', rd', PlaceOf(entry));
  }

  lemma {:induction false} DeliveriesSame(w: World, cfg: Config, rd: Reader, w': World, rd': Reader,
                                          entries: seq<string>, key: string)
    requires SameAnswers(w, rd, w', rd', EntryPlaces(entries)) && PathsFine(w, cfg, rd, entries)
    ensures PathsFine(w', cfg.(daemon := false), rd', entries)
    ensures LastDelivery(w', cfg.(daemon := false), rd', entries, key) == LastDelivery(w, cfg, rd, entries, key)
    decreases |entries|
  {
    forall k | 0 <= k < |entries|
      ensures PathData(w', cfg.(daemon := false), rd', entries[k]) == PathData(w, cfg, rd, entries[k])
      ensures EntryFine(w', cfg.(daemon := false), PathData(w', cfg.(daemon := false), rd', entries[k]))
    {
      assert EntryFine(w, cfg, PathData(w, cfg, rd, entries[k]));
      assert PlaceOf(entries[k]) in EntryPlaces(entries);
      PathSame(w, cfg, rd, w', rd', entries[k]);
    }
    if entries != [] {
      var front := entries[..|entries| - 1];
      forall p | p in EntryPlaces(front) ensures p in EntryPlaces(entries) {
        var k :| 0 <= k < |front| && PlaceOf(front[k]) == p;
        assert PlaceOf(entries[k]) == p;
      }
      DeliveriesSame(w, cfg, rd, w', rd', front, key);
    }
  }

  lemma {:induction false} LastDeliveryExists(w: World, cfg: Config, rd: Reader, entries: seq<string>, key: string)
    requires PathsFine(w, cfg, rd, entries)
    ensures LastDelivery(w, cfg, rd, entries, key).Some? <==> DeliveredBy(w, cfg, rd, entries, key)
    decreases |entries|
  {
    if entries != [] {
      var last, front := entries[|entries| - 1], entries[..|entries| - 1];
      assert EntryFine(w, cfg, PathData(w, cfg, rd, last));
      LastDeliveryExists(w, cfg, rd, front, key);
      if DeliveredBy(w, cfg, rd, front, key) {
        var k :| 0 <= k < |front| && Delivers(w, cfg, rd, front[k], key);
        assert Delivers(w, cfg, rd, entries[k], key);
      }
      if k :| 0 <= k < |entries| && Delivers(w, cfg, rd, entries[k], key) {
        if k < |front| { assert Delivers(w, cfg, rd, front[k], key); }
      }
    }
  }

  /** While everything that is polled answers as at startup, polls leave the process alone exactly
      when no update-style variable is also a key of VAULT_ENV_FROM_PATH: its name is taken out of the
      baseline but not out of what a poll resolves. */
  lemma UnchangedStoreExactly(w: World, cfg: Config, rd: Reader, w': World, rd': Reader, env: map<string, string>,
                              entries: seq<string>)
    requires SameAnswers(w, rd, w', rd', WatchedPlaces(env, entries)) && PathsFine(w, cfg, rd, entries)
    requires forall name | name in Watched(env) :: !Direct(w, cfg, rd, name, env[name]).Error?
    ensures PathsFine(w', cfg.(daemon := false), rd', entries)
    ensures (forall key ::
               BaselineView(w, cfg, rd, env, entries, key) ==
               View(w', cfg.(daemon := false), rd', Watched(env), entries, key))
      <==> forall name | name in UpdateNames(env) :: !DeliveredBy(w, cfg, rd, entries, name)
  {
    var cfg' := cfg.(daemon := false);
    DeliveriesSame(w, cfg, rd, w', rd', entries, "");
    forall key
      ensures View(w', cfg', rd', Watched(env), entries, key) == View(w, cfg, rd, Watched(env), entries, key)
      ensures LastDelivery(w, cfg, rd, entries, key).Some? <==> DeliveredBy(w, cfg, rd, entries, key)
    {
      DeliveriesSame(w, cfg, rd, w', rd', entries, key);
      LastDeliveryExists(w, cfg, rd, entries, key);
      if key in Watched(env) {
        PlacesIn(Watched(env), key);
        DirectSame(w, cfg, rd, w', rd', key, env[key]);
      }
    }
    forall name | name in UpdateNames(env)
      ensures BaselineView(w, cfg, rd, env, entries, name) == View(w', cfg', rd', Watched(env), entries, name)
        <==> !DeliveredBy(w, cfg, rd, entries, name)
    {
      assert name !in Watched(env);
    }
  }

  // The digests of two resolutions, of which the views are known.
  lemma DigestsAgreeExactly(h: Hash, w: World, cfg: Config, rd: Reader, st: State, env: map<string, string>,
                            order: seq<string>, entries: seq<string>, secrets: map<string, string>,
                            w': World, rd': Reader, polled: map<string, string>, initialHash: string, newHash: string)
    requires Steady(w, rd, st.log, OwnWrites(w, env), WatchedPlaces(env, entries))
    requires st.cache == map[] && Separated(env)
    requires Enumerates(order, env.Keys) && (forall name | name in order :: name in env)
    requires Resolves(w, cfg, st, env, order, entries, secrets)
    requires SameAnswers(w, rd, w', rd', WatchedPlaces(env, entries))
    requires forall key :: At(polled, key) == View(w', cfg.(daemon := false), rd', Watched(env), entries, key)
    requires IsDigest(h, Baseline(secrets, env), initialHash) && IsDigest(h, polled, newHash)
    requires ShortFields(Baseline(secrets, env)) && ShortFields(polled)
    requires TellsApart(h, Baseline(secrets, env), polled)
    ensures newHash == initialHash
      <==> forall name | name in UpdateNames(env) :: !DeliveredBy(w, cfg, rd, entries, name)
  {
    StartupView(w, cfg, rd, st, env, order, entries, secrets);
    UnchangedStoreExactly(w, cfg, rd, w', rd', env, entries);
    RestartExactly(h, w, cfg, rd, env, entries, secrets, w', cfg.(daemon := false), rd', polled, initialHash, newHash);
  }

  // A store in which one path holds one variable.
  function Holding(name: string): Reply {
    Found(Secret(Some(map[name := Scalar("v")]), 0))
  }

  function OneSecret(name: string): World {
    World((log, path, argument) => Holding(name), (log, op) => Absent, (path, secret) => true, text => Some(map[]),
          v => Some("v"), v => map[], (key, data) => None, "")
  }

  /** The other side of this happens: a variable holds an update, a path delivers the variable, nothing
      ever changes, and yet the baseline and every poll differ. */
  lemma UnchangedStoreCanDiffer(cfg: Config, name: string, path: string, key: string, entry: string)
    requires name != "data"
    ensures var w, env := OneSecret(name), map[name := Update(path, key)];
      var rd: Reader := (p, v) => Holding(name);
      && (forall log :: Serves(w, log, rd, WatchedPlaces(env, [entry])))
      && name in UpdateNames(env) && Watched(env) == map[] && PathsFine(w, cfg, rd, [entry])
      && BaselineView(w, cfg, rd, env, [entry], name) == None
      && View(w, cfg.(daemon := false), rd, Watched(env), [entry], name) == Some("v")
  {
    var w, env := OneSecret(name), map[name := Update(path, key)];
    var rd: Reader := (p, v) => Holding(name);
    UpdateIsMarked(path, key);
    assert Update(path, key) == env[name];
    assert PathData(w, cfg, rd, entry) == Got(map[name := Scalar("v")]);
    assert PathData(w, cfg.(daemon := false), rd, entry) == Got(map[name := Scalar("v")]);
    assert Delivers(w, cfg.(daemon := false), rd, [entry][0], name);
  }

  lemma UpdateIsMarked(path: string, key: string)
    ensures IsUpdateReference(Update(path, key))
  {
    PrefixOfSum(">>" + Marker, path + "#" + key);
    assert Update(path, key) == (">>" + Marker) + (path + "#" + key);
  }

  predicate PollsQuietly(parse: Parser, cfg: Config, env: map<string, string>, order: seq<string>)
    requires forall name | name in order :: name in Watched(env)
  {
    !CanWrite(parse, cfg.ignoreMissing, AllLeaves(Watched(env), order), {})
  }

  /** Polling is read-only, in every store and for every order of iteration, if and only if for no
      order the texts that are polled can write. */
  lemma PollingReadOnlyExactly(parse: Parser, cfg: Config, env: map<string, string>, entries: seq<string>)
    ensures (forall w: World, log: seq<Write>, order: seq<string> |
               && w.parseJson == parse && Enumerates(order, Watched(env).Keys)
               && (forall name | name in order :: name in Watched(env)) ::
               LastState(w, cfg, State(map[], log, []), Watched(env), order, entries).log == log)
      <==> forall order: seq<string> |
             Enumerates(order, Watched(env).Keys) && (forall name | name in order :: name in Watched(env)) ::
             PollsQuietly(parse, cfg, env, order)
  {
    forall order: seq<string> |
      Enumerates(order, Watched(env).Keys) && forall name | name in order :: name in Watched(env)
      ensures (forall w: World, log: seq<Write> | w.parseJson == parse ::
                 LastState(w, cfg, State(map[], log, []), Watched(env), order, entries).log == log)
        <==> PollsQuietly(parse, cfg, env, order)
    {
      PollWritesExactly(parse, cfg, Watched(env), order, entries);
    }
  }

  /** Where no polled template hides a nested update, that is so. */
  lemma NoNestedUpdatesQuiet(parse: Parser, cfg: Config, env: map<string, string>, order: seq<string>)
    requires forall name | name in order :: name in Watched(env)
    requires forall name | name in Watched(env) :: !HasNestedUpdate(env[name])
    ensures PollsQuietly(parse, cfg, env, order)
  {
    forall name | name in Watched(env) ensures ReadsOnly(name, env[name]) {
      GuardedUpdates(name, env[name]);
    }
    OrderLeavesRead(Watched(env), order);
    if !PollsQuietly(parse, cfg, env, order) {
      ReadersCannotWrite(parse, cfg.ignoreMissing, AllLeaves(Watched(env), order), {});
    }
  }

  lemma {:induction false} OrderLeavesRead(refs: map<string, string>, order: seq<string>)
    requires AllReadOnly(refs) && forall name | name in order :: name in refs
    ensures forall p | p in AllLeaves(refs, order) && p.Lookup? :: !p.update
    decreases |order|
  {
    if order != [] {
      assert order[0] in refs;
      LeavesArePlains(order[0], refs[order[0]]);
      OrderLeavesRead(refs, order[1..]);
    }
  }
}
