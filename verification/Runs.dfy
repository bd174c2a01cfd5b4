/** Whole runs of the resolver over an environment: order of iteration, cache, writes, and the
    paths that are delivered as a whole. */
module Runs {
  import opened Strings
  import opened Pattern
  import opened Substitution
  import opened Vault
  import opened Resolver

  predicate NoDup(order: seq<string>) {
    forall i, j | 0 <= i < j < |order| :: order[i] != order[j]
  }

  // One of the orders in which a Go map with these keys can be iterated.
  predicate Enumerates(order: seq<string>, keys: set<string>) {
    NoDup(order) && (set name | name in order) == keys
  }

  // The result map holds the name with its directly resolved value, or not at all.
  predicate Agrees(w: World, cfg: Config, rd: Reader, refs: map<string, string>, out: map<string, string>, name: string)
    requires name in refs
  {
    match Direct(w, cfg, rd, name, refs[name])
    case Resolved(text) => name in out && out[name] == text
    case _ => name !in out
  }

  predicate AllAccounted(w: World, refs: map<string, string>, f: Frame) {
    forall name | name in refs :: Accounted(w, name, refs[name], f)
  }

  predicate AllReadOnly(refs: map<string, string>) {
    forall name | name in refs :: ReadsOnly(name, refs[name])
  }

  // Everything that the references look up.
  function AllPlaces(refs: map<string, string>): set<Place> {
    set name, q | name in refs && q in PlacesOf(Plains(name, refs[name])) :: q
  }

  lemma PlacesIn(refs: map<string, string>, name: string)
    requires name in refs
    ensures PlacesOf(Plains(name, refs[name])) <= AllPlaces(refs)
  {
    assert forall q | q in PlacesOf(Plains(name, refs[name])) :: q in AllPlaces(refs);
  }

  predicate Fails(w: World, cfg: Config, rd: Reader, refs: map<string, string>, name: string)
    requires name in refs
  {
    Direct(w, cfg, rd, name, refs[name]).Error?
  }

  /** A run, in any order and with any sound cache, agrees with direct reads on every reference
      that none of its writes can disturb. */
  lemma {:induction false} RunAgrees(w: World, cfg: Config, rd: Reader, f: Frame, st: State,
                                    refs: map<string, string>, order: seq<string>, out: map<string, string>)
    requires Holds(w, rd, f) && Sound(w, cfg, rd, f, st) && AllAccounted(w, refs, f)
    requires NoDup(order) && forall name | name in order :: name in refs && name !in out
    ensures var (next, res) := ResolveAll(w, cfg, st, refs, order, out);
      && Sound(w, cfg, rd, f, next)
      && (AllReadOnly(refs) ==> next.log == st.log)
      && (res.Some? ==>
          && (forall name | name in order && Undisturbed(name, refs[name], f) ::
               Agrees(w, cfg, rd, refs, res.value, name) && !Fails(w, cfg, rd, refs, name))
          && (forall name | name !in order :: name in res.value <==> name in out)
          && (forall name | name in out :: name in res.value && res.value[name] == out[name]))
      && (res.None? && (forall name | name in order :: Undisturbed(name, refs[name], f)) ==>
           exists name :: name in order && Fails(w, cfg, rd, refs, name))
    decreases |order|
  {
    if order != [] {
      var name := order[0];
      assert name in order;
      ResolveStep(w, cfg, rd, f, st, name, refs[name]);
      var (next, outcome) := Resolve(w, cfg, st, name, refs[name]);
      assert forall other | other in order[1..] :: other in order && other != name;
      if !outcome.Error? {
        var out' := if outcome.Resolved? then out[name := outcome.text] else out;
        RunAgrees(w, cfg, rd, f, next, refs, order[1..], out');
        assert forall other | other in order :: other == name || other in order[1..];
      }
    }
  }

  // A run that only reads.
  function Reading(log: seq<Write>, at: set<Place>): Frame {
    Frame(log, {}, at, {})
  }

  lemma GrowthNeedsWrites(longer: seq<Write>, log: seq<Write>, own: set<Write>)
    requires Extends(longer, log, own)
    ensures longer == log || own != {}
  {
    if |log| < |longer| { assert longer[|log|] in own; }
  }

  lemma ReadingHolds(w: World, rd: Reader, log: seq<Write>, at: set<Place>)
    requires Serves(w, log, rd, at)
    ensures Holds(w, rd, Reading(log, at))
  {
    forall longer | Extends(longer, log, {}) ensures longer == log {
      GrowthNeedsWrites(longer, log, {});
    }
  }

  lemma NothingDirty(w: World, name: string, value: string, f: Frame)
    requires ReadsOnly(name, value) && PlacesOf(Plains(name, value)) <= f.at && f.dirty == {}
    ensures Accounted(w, name, value, f) && Undisturbed(name, value, f)
  {
    assert (set p | p in Plains(name, value) && p.Lookup? && p.update) == {};
    assert WritesOf(w, Plains(name, value)) == {};
  }

  lemma AllUndisturbed(w: World, refs: map<string, string>, f: Frame)
    requires AllReadOnly(refs) && AllPlaces(refs) <= f.at && f.dirty == {}
    ensures forall name | name in refs :: Accounted(w, name, refs[name], f) && Undisturbed(name, refs[name], f)
  {
    forall name | name in refs
      ensures Accounted(w, name, refs[name], f) && Undisturbed(name, refs[name], f)
    {
      PlacesIn(refs, name);
      NothingDirty(w, name, refs[name], f);
    }
  }

  /** Read-only references against a store that answers the same for what they look up: whatever
      the iteration order and whatever a sound cache already holds, the run fails exactly when some
      reference fails on its own, and otherwise returns exactly the directly resolved values; the
      cache stays sound and nothing is written. */
  lemma OrderIndependence(w: World, cfg: Config, rd: Reader, at: set<Place>, st: State, refs: map<string, string>,
                          order: seq<string>)
    requires AllReadOnly(refs) && Enumerates(order, refs.Keys) && AllPlaces(refs) <= at
    requires Serves(w, st.log, rd, at) && CacheSound(w, cfg, rd, Reading(st.log, at), st.cache)
    ensures forall name | name in order :: name in refs
    ensures var (next, res) := ResolveAll(w, cfg, st, refs, order, map[]);
      && CacheSound(w, cfg, rd, Reading(st.log, at), next.cache)
      && next.log == st.log
      && (res.None? <==> exists name :: name in refs && Fails(w, cfg, rd, refs, name))
      && (res.Some? ==> res.value == DirectAll(w, cfg, rd, refs))
  {
    var f := Reading(st.log, at);
    forall name | name in order ensures name in refs { assert name in set n | n in order; }
    forall name | name in refs ensures name in order { assert name in set n | n in order; }
    ReadingHolds(w, rd, st.log, at);
    AllUndisturbed(w, refs, f);
    RunAgrees(w, cfg, rd, f, st, refs, order, map[]);
    var (next, res) := ResolveAll(w, cfg, st, refs, order, map[]);
    if res.Some? {
      var all := DirectAll(w, cfg, rd, refs);
      forall name
        ensures name in res.value <==> name in all
        ensures name in all ==> res.value[name] == all[name]
      {
        if name in order {
          assert Agrees(w, cfg, rd, refs, res.value, name);
        }
      }
      assert res.value == all;
    }
  }

  // ---------------------------------------------------------------------------------------
  // The meaning of one inline value.
  // ---------------------------------------------------------------------------------------

  /** A value with inline references becomes the value with every reference replaced, at once, by
      what its body resolves to. */
  lemma InlineMeaning(w: World, cfg: Config, rd: Reader, name: string, value: string)
    requires HasInline(value)
    requires Ordered(value, 0, FindAll(value)) && CleanTemplate(value, 0, FindAll(value))
    requires var texts := Texts(value, FindAll(value)); var own := Values(Own(w, cfg, rd, name, value));
      && CleanValues(texts, own)
      && (Apart(texts)
          || (LongestFirst(texts) && SolidValues(texts, own) && forall t | t in texts :: own(t).Some?))
    ensures Direct(w, cfg, rd, name, value) ==
      if exists m :: m in FindAll(value) && Direct(w, cfg, rd, name, m.Body(value)).Error? then Error
      else Resolved(Substitute(value, 0, FindAll(value), Values(Own(w, cfg, rd, name, value))))
  {
    var spans := FindAll(value);
    var texts := Texts(value, spans);
    var own := Own(w, cfg, rd, name, value);
    SplicingIsSimultaneous(value, Values(own));
    forall m | m in spans
      ensures m.Text(value) in texts && own(m.Text(value)) == Direct(w, cfg, rd, name, m.Body(value))
    {
      var k :| 0 <= k < |spans| && spans[k] == m;
      assert texts[k] == m.Text(value);
      OwnOfSpan(w, cfg, rd, name, value, m);
    }
    if t :| t in texts && own(t).Error? {
      var k :| 0 <= k < |texts| && texts[k] == t;
      assert spans[k] in spans;
      assert Direct(w, cfg, rd, name, spans[k].Body(value)).Error?;
    }
  }

  // ---------------------------------------------------------------------------------------
  // Writes.
  // ---------------------------------------------------------------------------------------

  predicate IsUpdateReference(value: string) {
    || HasPrefix(value, ">>" + Marker)
    || exists m | m in FindAll(value) :: HasPrefix(m.Body(value), ">>")
  }

  // A plain value issues a write exactly when it is marked as an update and names a key.
  predicate UpdatesPlainly(value: string) {
    HasPrefix(value, ">>" + Marker) && '#' in value
  }

  lemma PlainUpdate(name: string, value: string)
    ensures var p := ParsePlain(name, value);
      p.Lookup? && p.update <==> UpdatesPlainly(value)
  {
    if HasPrefix(value, ">>" + Marker) {
      var bare := TrimPrefix(value, ">>");
      assert value == ">>" + bare;
      assert value[0..16] == ">>" + Marker;
      assert bare[0..14] == value[0..16][2..];
      var rest := TrimPrefix(bare, Marker);
      assert bare == Marker + rest;
      SplitNHead(rest, '#', 3);
    }
  }

  // Updates hidden one level deeper than isUpdateReference looks.
  predicate HasNestedUpdate(value: string) {
    exists m, k | m in FindAll(value) && k in FindAll(m.Body(value)) ::
      UpdatesPlainly(k.Body(m.Body(value)))
  }

  // A value that passes the guard holds an update only if one is nested inside a match body.
  lemma GuardedUpdates(name: string, value: string)
    requires !IsUpdateReference(value)
    ensures ReadsOnly(name, value) <==> !HasNestedUpdate(value)
  {
    ScanFacts(value, 0);
    if HasInline(value) {
      forall m | m in FindAll(value)
        ensures ReadsOnly(name, m.Body(value)) <==>
          forall k | k in FindAll(m.Body(value)) :: !UpdatesPlainly(k.Body(m.Body(value)))
      {
        BodyShape(value, m.start);
        BodyReadsOnly(name, m.Body(value));
      }
      ReadsOnlyByBody(name, value);
    } else {
      PlainUpdate(name, value);
    }
  }

  lemma ReadsOnlyByBody(name: string, value: string)
    requires HasInline(value)
    ensures ReadsOnly(name, value) <==> forall m | m in FindAll(value) :: ReadsOnly(name, m.Body(value))
  {
    forall m | m in FindAll(value) ensures ReadsOnly(name, value) ==> ReadsOnly(name, m.Body(value)) {
      BodyPlains(name, value, m);
    }
  }

  lemma MarkedBegins(value: string)
    ensures HasPrefix(value, ">>" + Marker) ==> HasPrefix(value, ">>")
  {
    OccursSplit(">>", Marker, value, 0);
  }

  // The body of a match: not itself marked as an update, and at most one more level.
  lemma BodyReadsOnly(name: string, body: string)
    requires BraceAtMostLast(body) && !HasPrefix(body, ">>")
    ensures ReadsOnly(name, body) <==> forall k | k in FindAll(body) :: !UpdatesPlainly(k.Body(body))
  {
    ScanFacts(body, 0);
    if HasInline(body) {
      forall k | k in FindAll(body)
        ensures ReadsOnly(name, k.Body(body)) <==> !UpdatesPlainly(k.Body(body))
      {
        InnerBodyShape(body, k.start);
        NoBraceNoMatch(k.Body(body));
        PlainUpdate(name, k.Body(body));
      }
      ReadsOnlyByBody(name, body);
    } else {
      PlainUpdate(name, body);
      MarkedBegins(body);
    }
  }

  // One match: the state moves on exactly as its body moves it.
  lemma OneMatch(w: World, cfg: Config, st: State, name: string, value: string, m: Span)
    requires FindAll(value) == [m]
    ensures m.In(value) && Resolve(w, cfg, st, name, value).0 == Resolve(w, cfg, st, name, m.Body(value)).0
  {
    assert m in FindAll(value);
    OneSpan(w, cfg, st, name, value, value, [m]);
  }

  lemma OneSpan(w: World, cfg: Config, st: State, name: string, value: string, cur: string, spans: seq<Span>)
    requires |spans| == 1 && spans[0].In(value)
    ensures forall m | m in spans :: m.In(value)
    ensures ResolveSpans(w, cfg, st, name, value, cur, spans).0
         == Resolve(w, cfg, st, name, spans[0].Body(value)).0
  {
    var (next, outcome) := Resolve(w, cfg, st, name, spans[0].Body(value));
    assert spans[1..] == [];
    assert forall text :: ResolveSpans(w, cfg, next, name, value, text, []).0 == next;
  }

  function Update(path: string, key: string): string {
    ">>" + (Marker + (path + "#" + key))
  }

  lemma UpdateParses(name: string, path: string, key: string)
    requires '#' !in path && '#' !in key
    ensures ParsePlain(name, Update(path, key)) == Lookup(path, key, "{}", true)
  {
    var rest := path + "#" + key;
    var bare := Marker + rest;
    PrefixOfSum(">>", bare);
    PrefixOfSum(Marker, rest);
    PrefixOfSum(">>" + Marker, rest);
    assert Update(path, key) == ">>" + bare == (">>" + Marker) + rest;
    SplitNTwo(path, key);
    assert rest[|path|] == '#' && '#' !in "login";
  }

  lemma SplitNTwo(path: string, key: string)
    requires '#' !in path && '#' !in key
    ensures SplitN(path + "#" + key, '#', 3) == [path, key]
  {
    var s := path + "#" + key;
    assert s[0..|path|] == path && s[|path|] == '#' && s[|path| + 1..] == key;
    IndexFromIs(s, '#', 0, |path|);
    assert s[..|path|] == path;
    assert IndexFrom(key, '#', 0) == |key|;
    assert SplitN(key, '#', 2) == [key];
  }

  lemma UpdateRef(path: string, key: string)
    requires forall c | c in path + key :: c != '}' && c != '\n' && c != '#'
    ensures var inner := "${" + Update(path, key) + "}"; RefText(inner) && BraceAtMostLast(inner)
  {
    var inner := "${" + Update(path, key) + "}";
    var rest := path + "#" + key;
    assert inner == Opener(2) + rest + "}";
    forall k | 18 <= k < |inner| - 1
      ensures inner[k] != '}' && inner[k] != '\n'
    {
      assert inner[k] == rest[k - 18];
      assert rest[k - 18] == '#' || rest[k - 18] in path + key;
    }
    RefFrom(inner, 2, |inner| - 1);
    assert forall k | 0 <= k < 18 :: inner[k] == Opener(2)[k];
  }

  lemma UpdateHasNoBrace(path: string, key: string)
    requires forall c | c in path + key :: c != '}'
    ensures NoBrace(Update(path, key))
  {
    var front, rest := ">>" + Marker, path + "#" + key;
    assert Update(path, key) == front + rest;
    assert forall k | 0 <= k < |rest| :: rest[k] == '#' || rest[k] in path + key;
  }

  lemma LookupWrites(w: World, cfg: Config, log: seq<Write>, path: string, key: string)
    requires w.parseJson("{}").Some?
    ensures ResolvePlain(w, cfg, State(map[], log, []), Lookup(path, key, "{}", true)).0.log
         == log + [Write(path, w.parseJson("{}").value)]
  {
  }

  lemma UpdateWrites(w: World, cfg: Config, log: seq<Write>, name: string, path: string, key: string)
    requires forall c | c in path + key :: c != '}' && c != '#'
    requires w.parseJson("{}").Some?
    ensures UpdatesPlainly(Update(path, key))
    ensures Resolve(w, cfg, State(map[], log, []), name, Update(path, key)).0.log
         == log + [Write(path, w.parseJson("{}").value)]
  {
    var plain := Update(path, key);
    UpdateHasNoBrace(path, key);
    NoBraceNoMatch(plain);
    NotHash(path, key);
    UpdateParses(name, path, key);
    PlainUpdate(name, plain);
    LookupWrites(w, cfg, log, path, key);
    assert !HasInline(plain);
    assert Resolve(w, cfg, State(map[], log, []), name, plain)
        == ResolvePlain(w, cfg, State(map[], log, []), Lookup(path, key, "{}", true));
  }

  // Two levels down is where the guard no longer looks.
  lemma NestedPassesGuard(inner: string, plain: string)
    requires inner == "${" + plain + "}" && RefText(inner) && BraceAtMostLast(inner) && UpdatesPlainly(plain)
    ensures !IsUpdateReference(Nest(inner)) && HasNestedUpdate(Nest(inner))
  {
    NestedBody(inner);
    var value, body := Nest(inner), Marker + inner;
    var outer, nested := Span(0, |value|), Span(|Marker|, |body|);
    assert BodyOf(inner) == plain;
    assert value[0] == '$' && body[0] == Marker[0];
    assert outer in FindAll(value) && nested in FindAll(body);
    assert forall m | m in FindAll(value) :: m == outer;
    NotMarked(value);
    NotMarked(body);
  }

  lemma NotMarked(value: string)
    requires value != "" && value[0] != '>'
    ensures !HasPrefix(value, ">>") && !HasPrefix(value, ">>" + Marker)
  {
    assert |value| >= 2 ==> value[0..2][0] == value[0];
    MarkedBegins(value);
  }

  lemma NestedBody(inner: string)
    requires RefText(inner) && BraceAtMostLast(inner) && |inner| >= 3
    ensures var body := Marker + inner;
      && FindAll(Nest(inner)) == [Span(0, |Nest(inner)|)]
      && Span(0, |Nest(inner)|).Body(Nest(inner)) == body
      && FindAll(body) == [Span(|Marker|, |body|)]
      && Span(|Marker|, |body|).Body(body) == BodyOf(inner)
  {
    NestedMatches(inner);
    var body := Marker + inner;
    var b, c := Span(|Marker|, |body|).Body(body), BodyOf(inner);
    assert |b| == |c| && forall k | 0 <= k < |b| :: b[k] == body[16 + k] == inner[k + 2] == c[k];
    assert b == c;
  }

  /** The guard is not enough on its own: a nested update passes it, and resolving it from an
      empty cache writes to the store in every world that accepts the payload. */
  lemma NestedUpdateEscapes(w: World, cfg: Config, log: seq<Write>, name: string, path: string, key: string)
    requires forall c | c in path + key :: c != '}' && c != '\n' && c != '#'
    requires w.parseJson("{}").Some?
    ensures var value := Nest("${" + Update(path, key) + "}");
      && !IsUpdateReference(value)
      && HasNestedUpdate(value)
      && Resolve(w, cfg, State(map[], log, []), name, value).0.log == log + [Write(path, w.parseJson("{}").value)]
  {
    var plain := Update(path, key);
    var inner := "${" + plain + "}";
    UpdateRef(path, key);
    UpdateWrites(w, cfg, log, name, path, key);
    NestedPassesGuard(inner, plain);
    NestedStep(w, cfg, State(map[], log, []), name, inner);
    assert BodyOf(inner) == plain;
  }

  lemma NestedStep(w: World, cfg: Config, st: State, name: string, inner: string)
    requires RefText(inner) && BraceAtMostLast(inner) && |inner| >= 3
    ensures Resolve(w, cfg, st, name, Nest(inner)).0 == Resolve(w, cfg, st, name, BodyOf(inner)).0
  {
    NestedBody(inner);
    var value, body := Nest(inner), Marker + inner;
    OneMatch(w, cfg, st, name, value, Span(0, |value|));
    OneMatch(w, cfg, st, name, body, Span(|Marker|, |body|));
  }

  lemma NotHash(path: string, key: string)
    requires forall c | c in path + key :: c != '#'
    ensures '#' !in path && '#' !in key
  {
    assert forall c | c in path :: c in path + key;
    assert forall c | c in key :: c in path + key;
  }

  // ---------------------------------------------------------------------------------------
  // VAULT_ENV_FROM_PATH.
  // ---------------------------------------------------------------------------------------

  // The place that one entry of the comma-separated list names.
  function PlaceOf(entry: string): Place {
    var split := SplitN(entry, '#', 2);
    Place(split[0], if |split| == 2 then split[1] else "-1")
  }

  function EntryPlaces(entries: seq<string>): set<Place> {
    set k | 0 <= k < |entries| :: PlaceOf(entries[k])
  }

  // What one entry delivers when read directly.
  function PathData(w: World, cfg: Config, rd: Reader, entry: string): Fetched {
    var p := PlaceOf(entry);
    Taken(w, cfg, p.path, rd(p.path, p.argument))
  }

  // The entry is there, or may be missing, and every value in it is convertible.
  predicate EntryFine(w: World, cfg: Config, fetched: Fetched) {
    match fetched
    case Fault => false
    case NoData => cfg.ignoreMissing
    case Got(data) => forall key | key in data :: w.toText(data[key]).Some?
  }

  predicate PathsFine(w: World, cfg: Config, rd: Reader, entries: seq<string>) {
    forall k | 0 <= k < |entries| :: EntryFine(w, cfg, PathData(w, cfg, rd, entries[k]))
  }

  predicate Delivers(w: World, cfg: Config, rd: Reader, entry: string, key: string) {
    PathData(w, cfg, rd, entry).Got? && key in PathData(w, cfg, rd, entry).data
  }

  predicate DeliveredBy(w: World, cfg: Config, rd: Reader, entries: seq<string>, key: string) {
    exists k | 0 <= k < |entries| :: Delivers(w, cfg, rd, entries[k], key)
  }

  // The last entry that holds the key has the say.
  function LastDelivery(w: World, cfg: Config, rd: Reader, entries: seq<string>, key: string): (v: Option<string>)
    decreases |entries|
  {
    if entries == [] then None
    else
      var last := entries[|entries| - 1];
      if Delivers(w, cfg, rd, last, key) then w.toText(PathData(w, cfg, rd, last).data[key])
      else LastDelivery(w, cfg, rd, entries[..|entries| - 1], key)
  }

  lemma {:induction false} LastDeliverySplit(w: World, cfg: Config, rd: Reader, entries: seq<string>, key: string)
    requires PathsFine(w, cfg, rd, entries) && entries != []
    ensures PathsFine(w, cfg, rd, entries[1..])
    ensures LastDelivery(w, cfg, rd, entries, key) ==
      if LastDelivery(w, cfg, rd, entries[1..], key).Some? then LastDelivery(w, cfg, rd, entries[1..], key)
      else if Delivers(w, cfg, rd, entries[0], key) then w.toText(PathData(w, cfg, rd, entries[0]).data[key])
      else None
    decreases |entries|
  {
    var front, later := entries[..|entries| - 1], entries[1..];
    if |entries| == 1 {
      assert front == [] && later == [];
    } else {
      assert later[|later| - 1] == entries[|entries| - 1];
      assert later[..|later| - 1] == front[1..];
      assert front[0] == entries[0];
      LastDeliverySplit(w, cfg, rd, front, key);
    }
  }

  lemma PathsFineStep(w: World, cfg: Config, rd: Reader, entries: seq<string>)
    requires entries != []
    ensures PathsFine(w, cfg, rd, entries) <==>
      EntryFine(w, cfg, PathData(w, cfg, rd, entries[0])) && PathsFine(w, cfg, rd, entries[1..])
  {
    if PathsFine(w, cfg, rd, entries[1..]) {
      assert forall k | 1 <= k < |entries| :: entries[k] == entries[1..][k - 1];
    }
  }

  // The last delivery of a key where there is one, else what was there before.
  predicate Delivered(w: World, cfg: Config, rd: Reader, entries: seq<string>, out: map<string, string>,
                      res: map<string, string>, key: string)
  {
    match LastDelivery(w, cfg, rd, entries, key)
    case Some(v) => key in res && res[key] == v
    case None => (key in res <==> key in out) && (key in out ==> res[key] == out[key])
  }

  lemma DeliveredStep(w: World, cfg: Config, rd: Reader, entries: seq<string>, out: map<string, string>,
                      res: map<string, string>, key: string)
    requires PathsFine(w, cfg, rd, entries) && entries != []
    requires PathsFine(w, cfg, rd, entries[1..])
    requires EntryFine(w, cfg, PathData(w, cfg, rd, entries[0]))
    requires Delivered(w, cfg, rd, entries[1..], After(w, cfg, PathData(w, cfg, rd, entries[0]), out), res, key)
    ensures Delivered(w, cfg, rd, entries, out, res, key)
  {
    LastDeliverySplit(w, cfg, rd, entries, key);
  }

  // The map after one entry that is fine.
  function After(w: World, cfg: Config, fetched: Fetched, out: map<string, string>): map<string, string>
    requires EntryFine(w, cfg, fetched)
  {
    if fetched.Got? then out + TextMap(w, fetched.data) else out
  }

  lemma PathsUnfold(w: World, cfg: Config, rd: Reader, st: State, entries: seq<string>, out: map<string, string>)
    returns (next: State)
    requires entries != [] && Serves(w, st.log, rd, EntryPlaces(entries))
    ensures next.log == st.log && next.cache == st.cache
    ensures ResolvePaths(w, cfg, st, entries, out) ==
      var fetched := PathData(w, cfg, rd, entries[0]);
      if EntryFine(w, cfg, fetched) then ResolvePaths(w, cfg, next, entries[1..], After(w, cfg, fetched, out))
      else (next, None)
  {
    var split := SplitN(entries[0], '#', 2);
    var version := if |split| == 2 then split[1] else "-1";
    var read := ReadVaultPath(w, cfg, st, split[0], version, false);
    assert PlaceOf(entries[0]) in EntryPlaces(entries);
    assert read.1 == PathData(w, cfg, rd, entries[0]);
    next := read.0;
  }

  /** Paths are always read directly, and fail as a whole; on success a key has the value of the
      last path that holds it, and otherwise the value it had before. */
  lemma {:induction false} PathsMeaning(w: World, cfg: Config, rd: Reader, st: State, entries: seq<string>,
                                        out: map<string, string>)
    requires Serves(w, st.log, rd, EntryPlaces(entries))
    ensures var (next, res) := ResolvePaths(w, cfg, st, entries, out);
      && next.log == st.log && next.cache == st.cache
      && (res.Some? <==> PathsFine(w, cfg, rd, entries))
      && (res.Some? ==> forall key :: Delivered(w, cfg, rd, entries, out, res.value, key))
    decreases |entries|
  {
    if entries != [] {
      var fetched := PathData(w, cfg, rd, entries[0]);
      var next := PathsUnfold(w, cfg, rd, st, entries, out);
      PathsFineStep(w, cfg, rd, entries);
      forall p | p in EntryPlaces(entries[1..]) ensures p in EntryPlaces(entries) {
        var k :| 0 <= k < |entries| - 1 && PlaceOf(entries[1..][k]) == p;
        assert PlaceOf(entries[k + 1]) == p;
      }
      if EntryFine(w, cfg, fetched) {
        var out' := After(w, cfg, fetched, out);
        PathsMeaning(w, cfg, rd, next, entries[1..], out');
        var res := ResolvePaths(w, cfg, next, entries[1..], out').1;
        if res.Some? {
          forall key ensures Delivered(w, cfg, rd, entries, out, res.value, key) {
            DeliveredStep(w, cfg, rd, entries, out, res.value, key);
          }
        }
      }
    }
  }

  // ---------------------------------------------------------------------------------------
  // References, then paths.
  // ---------------------------------------------------------------------------------------

  // Where resolving the references and then the paths leaves the state, and whether it succeeds.
  function LastState(w: World, cfg: Config, st: State, refs: map<string, string>, order: seq<string>,
                     entries: seq<string>): State
    requires forall name | name in order :: name in refs
  {
    var (mid, res) := ResolveAll(w, cfg, st, refs, order, map[]);
    if res.None? then mid else ResolvePaths(w, cfg, mid, entries, res.value).0
  }

  predicate Succeeds(w: World, cfg: Config, st: State, refs: map<string, string>, order: seq<string>,
                     entries: seq<string>)
    requires forall name | name in order :: name in refs
  {
    var (mid, res) := ResolveAll(w, cfg, st, refs, order, map[]);
    res.Some? && ResolvePaths(w, cfg, mid, entries, res.value).1.Some?
  }
}
