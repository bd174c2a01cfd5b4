/** Resolution of secret references: the recursion, its cache, and what it is meant to compute. */
module Resolver {
  import opened Strings
  import opened Pattern
  import opened Substitution
  import opened Vault

  // ---------------------------------------------------------------------------------------
  // A value without inline references.
  // ---------------------------------------------------------------------------------------

  datatype Plain =
    | Literal(text: string)                 // not a reference, passed on as it is
    | Login                                 // VAULT_TOKEN=secrets-store:login
    | Malformed                             // no key behind the path
    | Lookup(path: string, key: string, argument: string, update: bool)

  function ParsePlain(name: string, value: string): Plain {
    var update := HasPrefix(value, ">>" + Marker);
    var bare := if update then TrimPrefix(value, ">>") else value;
    if !HasPrefix(bare, Marker) then Literal(bare)
    else
      var rest := TrimPrefix(bare, Marker);
      if name == "VAULT_TOKEN" && rest == "login" then Login
      else
        var split := SplitN(rest, '#', 3);
        if |split| < 2 then Malformed
        else
          var argument := if |split| == 3 then split[2] else if update then "{}" else "-1";
          Lookup(split[0], split[1], argument, update)
  }

  function CacheKey(path: string, argument: string): string {
    path + "#" + argument
  }

  datatype Outcome = Error | Missing | Resolved(text: string)

  // Templater.IsGoTemplate
  predicate IsGoTemplate(key: string) {
    Contains(key, "${") && Contains(key, "}")
  }

  function Extract(w: World, key: string, data: Data): Outcome {
    if IsGoTemplate(key) then
      match w.render(key, data) case None => Error case Some(text) => Resolved(text)
    else if key in data then
      match w.toText(data[key]) case None => Error case Some(text) => Resolved(text)
    else Error
  }

  function Conclude(w: World, cfg: Config, key: string, fetched: Fetched): Outcome {
    match fetched
    case Fault => Error
    case NoData => if cfg.ignoreMissing then Missing else Error
    case Got(data) => Extract(w, key, data)
  }

  // ---------------------------------------------------------------------------------------
  // The code: state is the cache, the write log, and the leases put under renewal.
  // ---------------------------------------------------------------------------------------

  datatype State = State(cache: map<string, Data>, log: seq<Write>, leases: seq<string>)

  // readVaultPath
  function ReadVaultPath(w: World, cfg: Config, st: State, path: string, argument: string, update: bool)
    : (State, Fetched)
  {
    if update then
      match w.parseJson(argument)
      case None => (st, Fault)
      case Some(payload) =>
        var op := Write(path, payload);
        Receive(w, cfg, st.(log := st.log + [op]), path, w.write(st.log, op))
    else
      Receive(w, cfg, st, path, w.read(st.log, path, argument))
  }

  function Receive(w: World, cfg: Config, st: State, path: string, reply: Reply): (State, Fetched) {
    var next :=
      if Leased(cfg, reply) && w.renew(path, reply.secret) then st.(leases := st.leases + [path]) else st;
    (next, Taken(w, cfg, path, reply))
  }

  function Fetch(w: World, cfg: Config, st: State, p: Plain): (State, Fetched)
    requires p.Lookup?
  {
    var key := CacheKey(p.path, p.argument);
    if key in st.cache then (st, Got(st.cache[key]))
    else
      var (next, fetched) := ReadVaultPath(w, cfg, st, p.path, p.argument, p.update);
      (if fetched.Got? then next.(cache := next.cache[key := fetched.data]) else next, fetched)
  }

  function ResolvePlain(w: World, cfg: Config, st: State, p: Plain): (State, Outcome) {
    match p
    case Literal(text) => (st, Resolved(text))
    case Login => (st, Resolved(w.token))
    case Malformed => (st, Error)
    case Lookup(_, key, _, _) =>
      var (next, fetched) := Fetch(w, cfg, st, p);
      (next, Conclude(w, cfg, key, fetched))
  }

  // One name of InjectSecretsFromVaultWithContext; a body is resolved under the same name.
  function Resolve(w: World, cfg: Config, st: State, name: string, value: string): (State, Outcome)
    decreases |value|, 1, 0
  {
    if HasInline(value) then ResolveSpans(w, cfg, st, name, value, value, FindAll(value))
    else ResolvePlain(w, cfg, st, ParsePlain(name, value))
  }

  function ResolveSpans(w: World, cfg: Config, st: State, name: string, value: string, cur: string,
                        spans: seq<Span>): (State, Outcome)
    requires forall m | m in spans :: m.In(value)
    decreases |value|, 0, |spans|
  {
    if spans == [] then (st, Resolved(cur))
    else
      assert spans[0] in spans;
      var (next, outcome) := Resolve(w, cfg, st, name, spans[0].Body(value));
      match outcome
      case Error => (next, Error)
      case Missing => ResolveSpans(w, cfg, next, name, value, cur, spans[1..])
      case Resolved(text) =>
        ResolveSpans(w, cfg, next, name, value, ReplaceAll(cur, spans[0].Text(value), text), spans[1..])
  }

  // The loop over the references, in the order in which the map happens to be iterated.
  function ResolveAll(w: World, cfg: Config, st: State, refs: map<string, string>, order: seq<string>,
                      out: map<string, string>): (State, Option<map<string, string>>)
    requires forall name | name in order :: name in refs
    decreases |order|
  {
    if order == [] then (st, Some(out))
    else
      var name := order[0];
      var (next, outcome) := Resolve(w, cfg, st, name, refs[name]);
      match outcome
      case Error => (next, None)
      case Missing => ResolveAll(w, cfg, next, refs, order[1..], out)
      case Resolved(text) => ResolveAll(w, cfg, next, refs, order[1..], out[name := text])
  }

  // InjectSecretsFromVaultPathWithContext: no cache, later paths win.
  function ResolvePaths(w: World, cfg: Config, st: State, paths: seq<string>, out: map<string, string>)
    : (State, Option<map<string, string>>)
    decreases |paths|
  {
    if paths == [] then (st, Some(out))
    else
      var split := SplitN(paths[0], '#', 2);
      var version := if |split| == 2 then split[1] else "-1";
      var (next, fetched) := ReadVaultPath(w, cfg, st, split[0], version, false);
      match fetched
      case Fault => (next, None)
      case NoData => if cfg.ignoreMissing then ResolvePaths(w, cfg, next, paths[1..], out) else (next, None)
      case Got(data) =>
        if forall key | key in data :: w.toText(data[key]).Some? then
          ResolvePaths(w, cfg, next, paths[1..], out + TextMap(w, data))
        else (next, None)
  }

  function TextMap(w: World, data: Data): map<string, string>
    requires forall key | key in data :: w.toText(data[key]).Some?
  {
    map key | key in data :: w.toText(data[key]).value
  }

  // ---------------------------------------------------------------------------------------
  // Depth of the recursion.
  // ---------------------------------------------------------------------------------------

  // The deepest nesting of calls that resolving `value` can lead to.
  ghost function Depth(value: string): (d: nat)
    decreases |value|, 1, 0
  {
    DeepestSpan(value, FindAll(value))
  }

  ghost function DeepestSpan(value: string, spans: seq<Span>): (d: nat)
    requires forall m | m in spans :: m.In(value)
    decreases |value|, 0, |spans|
  {
    if spans == [] then 0
    else
      assert spans[0] in spans;
      var here := 1 + Depth(spans[0].Body(value));
      var later := DeepestSpan(value, spans[1..]);
      if here > later then here else later
  }

  predicate NoBrace(s: string) {
    '}' !in s
  }

  // A brace occurs at the very end, if anywhere.
  predicate BraceAtMostLast(s: string) {
    forall k | 0 <= k < |s| - 1 :: s[k] != '}'
  }

  lemma BodyShape(s: string, i: nat)
    requires i <= |s| && MatchEnd(s, i).Some?
    ensures var body := Span(i, MatchEnd(s, i).value).Body(s);
      BraceAtMostLast(body) && |body| < |s|
  {
    var o := OpenerEnd(s, i).value;
    var r := CloseShape(s, o);
    var body := Span(i, MatchEnd(s, i).value).Body(s);
    var n := o - i - 16;
    OpenerAt(s, i, n);
    forall k | 0 <= k < |body| - 1
      ensures body[k] != '}'
    {
      assert body[k] == s[i + 2 + k];
      if i + 2 + k < o {
        assert s[i..i + 16 + n][k + 2] == Opener(n)[k + 2];
      }
    }
  }

  // Without a brace before it, the only one there is closes the match.
  lemma InnerBodyShape(s: string, i: nat)
    requires i <= |s| && MatchEnd(s, i).Some? && BraceAtMostLast(s)
    ensures NoBrace(Span(i, MatchEnd(s, i).value).Body(s))
  {
    var r := CloseShape(s, OpenerEnd(s, i).value);
    assert r == |s| - 1;
    var body := Span(i, MatchEnd(s, i).value).Body(s);
    forall k | 0 <= k < |body|
      ensures body[k] != '}'
    {
      assert body[k] == s[i + 2 + k];
    }
  }

  lemma NoBraceNoMatch(s: string)
    requires NoBrace(s)
    ensures FindAll(s) == []
  {
    ScanFacts(s, 0);
    if FindAll(s) != [] {
      var m := FindAll(s)[0];
      assert m in FindAll(s);
      var r := CloseShape(s, OpenerEnd(s, m.start).value);
    }
  }

  lemma {:induction false} DeepestBound(value: string, spans: seq<Span>, bound: nat)
    requires forall m | m in spans :: m.In(value) && Depth(m.Body(value)) <= bound
    ensures DeepestSpan(value, spans) <= 1 + bound
    decreases |spans|
  {
    if spans != [] {
      assert spans[0] in spans;
      DeepestBound(value, spans[1..], bound);
    }
  }

  lemma DepthOfBody(body: string)
    requires BraceAtMostLast(body)
    ensures Depth(body) <= 1
  {
    ScanFacts(body, 0);
    forall m | m in FindAll(body)
      ensures Depth(m.Body(body)) == 0
    {
      InnerBodyShape(body, m.start);
      NoBraceNoMatch(m.Body(body));
    }
    DeepestBound(body, FindAll(body), 0);
  }

  /** A match body inside a match body holds no further match. */
  lemma DepthAtMostTwo(value: string)
    ensures Depth(value) <= 2
  {
    ScanFacts(value, 0);
    forall m | m in FindAll(value)
      ensures Depth(m.Body(value)) <= 1
    {
      BodyShape(value, m.start);
      DepthOfBody(m.Body(value));
    }
    DeepestBound(value, FindAll(value), 1);
  }

  // A reference whose body is the marker and another reference.
  function Nest(inner: string): string {
    "${" + (Marker + inner) + "}"
  }

  // A reference closed by one brace is otherwise a single line without braces.
  lemma BeforeTheBrace(inner: string)
    requires RefText(inner) && BraceAtMostLast(inner)
    ensures |inner| >= 17 && inner[|inner| - 1] == '}'
    ensures forall k | 0 <= k < |inner| - 1 :: inner[k] != '}' && inner[k] != '\n'
  {
    var n, r := RefShape(inner);
    var m := Opener(n);
    assert forall k | 0 <= k < |m| :: m[k] != '\n';
    assert forall k | 0 <= k < |m| :: inner[k] == m[k];
  }

  lemma NestIsRef(inner: string)
    requires RefText(inner) && BraceAtMostLast(inner)
    ensures RefText(Nest(inner))
  {
    BeforeTheBrace(inner);
    var v := Nest(inner);
    assert v == Opener(0) + inner + "}";
    assert forall k | 16 <= k < |v| - 1 :: v[k] == inner[k - 16];
    RefFrom(v, 0, |v| - 2);
  }

  lemma NestedMatches(inner: string)
    requires RefText(inner) && BraceAtMostLast(inner)
    ensures FindAll(Nest(inner)) == [Span(0, |Nest(inner)|)]
    ensures Span(0, |Nest(inner)|).Body(Nest(inner)) == Marker + inner
    ensures FindAll(Marker + inner) == [Span(|Marker|, |Marker + inner|)]
    ensures Span(|Marker|, |Marker + inner|).Text(Marker + inner) == inner
  {
    NestIsRef(inner);
    WholeIsFound("", Nest(inner));
    assert "" + Nest(inner) == Nest(inner);
    WholeIsFound(Marker, inner);
  }

  lemma WholeIsFound(before: string, ref: string)
    requires RefText(ref) && '$' !in before
    ensures FindAll(before + ref) == [Span(|before|, |before + ref|)]
    ensures ref != "" && Span(|before|, |before + ref|).In(before + ref)
    ensures Span(|before|, |before + ref|).Text(before + ref) == ref
  {
    var s := before + ref;
    RefBegins(ref);
    assert s[|before|..|s|] == ref;
    RefIsFound(s, |before|, ref);
    assert s[0..|before|] == before;
    ScanSkips(s, 0, |before|);
    assert ScanFrom(s, |s|) == [];
  }

  /** The bound is reached by every reference that is nested in another. */
  lemma DepthTwoIsReached(inner: string)
    requires RefText(inner) && BraceAtMostLast(inner)
    ensures Depth(Nest(inner)) == 2
  {
    NestedMatches(inner);
    var v, body := Nest(inner), Marker + inner;
    var outer, nested := Span(0, |v|), Span(|Marker|, |body|);
    assert [outer][1..] == [] && [nested][1..] == [];
    assert Depth(body) == DeepestSpan(body, [nested]) >= 1;
    assert Depth(v) == DeepestSpan(v, [outer]) >= 2;
    DepthAtMostTwo(v);
  }

  // ---------------------------------------------------------------------------------------
  // What resolution is meant to compute: no state, no cache, every read made directly.
  // ---------------------------------------------------------------------------------------

  function DirectPlain(w: World, cfg: Config, rd: Reader, p: Plain): Outcome {
    match p
    case Literal(text) => Resolved(text)
    case Login => Resolved(w.token)
    case Malformed => Error
    case Lookup(path, key, argument, _) =>
      Conclude(w, cfg, key, Taken(w, cfg, path, rd(path, argument)))
  }

  // Body of a match text.
  function BodyOf(text: string): string
    requires |text| >= 3
  {
    text[2..|text| - 1]
  }

  function Direct(w: World, cfg: Config, rd: Reader, name: string, value: string): Outcome
    decreases |value|, 2
  {
    if !HasInline(value) then DirectPlain(w, cfg, rd, ParsePlain(name, value))
    else Spliced(value, Texts(value, FindAll(value)), Own(w, cfg, rd, name, value))
  }

  // What the body of one match of `value` resolves to.
  function Own(w: World, cfg: Config, rd: Reader, name: string, value: string): string -> Outcome
    decreases |value|, 1
  {
    t => OfMatch(w, cfg, rd, name, value, t)
  }

  function OfMatch(w: World, cfg: Config, rd: Reader, name: string, value: string, t: string): Outcome
    decreases |value|, 0
  {
    if 3 <= |t| <= |value| then Direct(w, cfg, rd, name, BodyOf(t)) else Error
  }

  // An error if any match has one, else the matches replaced one after the other.
  function Spliced(cur: string, texts: seq<string>, own: string -> Outcome): Outcome
    requires "" !in texts
  {
    if exists t | t in texts :: own(t).Error? then Error
    else Resolved(Splice(cur, texts, Values(own)))
  }

  function Values(own: string -> Outcome): Valuation {
    t => if own(t).Resolved? then Some(own(t).text) else None
  }

  // What the result map is meant to be: every reference that has a value, with that value.
  function DirectAll(w: World, cfg: Config, rd: Reader, refs: map<string, string>): map<string, string> {
    map name | name in refs && Direct(w, cfg, rd, name, refs[name]).Resolved? ::
      Direct(w, cfg, rd, name, refs[name]).text
  }

  // ---------------------------------------------------------------------------------------
  // The cache refines direct reads.
  // ---------------------------------------------------------------------------------------

  // The plain values that resolving `value` can come down to.
  function Plains(name: string, value: string): set<Plain>
    decreases |value|
  {
    if HasInline(value) then set m, p | m in FindAll(value) && p in Plains(name, m.Body(value)) :: p
    else {ParsePlain(name, value)}
  }

  // Resolving `value` issues no write.
  predicate ReadsOnly(name: string, value: string) {
    forall p | p in Plains(name, value) :: p.Lookup? ==> !p.update
  }

  // Cache keys under which a reference looks up or stores.
  function KeysOf(ps: set<Plain>): set<string> {
    set p | p in ps && p.Lookup? :: CacheKey(p.path, p.argument)
  }

  function UpdateKeysOf(ps: set<Plain>): set<string> {
    KeysOf(set p | p in ps && p.Lookup? && p.update)
  }

  // The places that are looked up, and the writes that may be issued.
  function PlacesOf(ps: set<Plain>): set<Place> {
    set p | p in ps && p.Lookup? :: Place(p.path, p.argument)
  }

  predicate Issues(w: World, p: Plain) {
    p.Lookup? && p.update && w.parseJson(p.argument).Some?
  }

  function WriteOf(w: World, p: Plain): Write
    requires Issues(w, p)
  {
    Write(p.path, w.parseJson(p.argument).value)
  }

  function WritesOf(w: World, ps: set<Plain>): set<Write> {
    set p | p in ps && Issues(w, p) :: WriteOf(w, p)
  }

  /** What a run relies on: the log it begins with, the writes it may add, the places that answer
      the same throughout, and the cache keys that its writes may fill. */
  datatype Frame = Frame(base: seq<Write>, own: set<Write>, at: set<Place>, dirty: set<string>)

  ghost predicate Holds(w: World, rd: Reader, f: Frame) {
    Steady(w, rd, f.base, f.own, f.at)
  }

  // Every entry for one of the places, except under the keys that writes may fill, is what a
  // direct read returns.
  predicate CacheSound(w: World, cfg: Config, rd: Reader, f: Frame, cache: map<string, Data>) {
    forall q | q in f.at && '#' !in q.path && CacheKey(q.path, q.argument) in cache.Keys - f.dirty ::
      Taken(w, cfg, q.path, rd(q.path, q.argument)) == Got(cache[CacheKey(q.path, q.argument)])
  }

  predicate Sound(w: World, cfg: Config, rd: Reader, f: Frame, st: State) {
    CacheSound(w, cfg, rd, f, st.cache) && Extends(st.log, f.base, f.own)
  }

  // The path holds no `#`, so the key determines path and argument.
  lemma CacheKeyInjective(path: string, argument: string, path': string, argument': string)
    requires '#' !in path && '#' !in path'
    requires CacheKey(path, argument) == CacheKey(path', argument')
    ensures path == path' && argument == argument'
  {
    SplitNRoundTrip(path, '#', argument);
    SplitNRoundTrip(path', '#', argument');
    assert [path, argument][0] == path && [path', argument'][0] == path';
    assert [path, argument][1] == argument && [path', argument'][1] == argument';
  }

  lemma ParsedPath(name: string, value: string)
    requires ParsePlain(name, value).Lookup?
    ensures '#' !in ParsePlain(name, value).path
  {
    var update := HasPrefix(value, ">>" + Marker);
    var bare := if update then TrimPrefix(value, ">>") else value;
    SplitNHead(TrimPrefix(bare, Marker), '#', 3);
  }

  lemma PlainStep(w: World, cfg: Config, rd: Reader, f: Frame, st: State, p: Plain)
    requires Holds(w, rd, f) && Sound(w, cfg, rd, f, st)
    requires p.Lookup? ==> '#' !in p.path
    requires p.Lookup? && p.update ==> CacheKey(p.path, p.argument) in f.dirty
    requires Issues(w, p) ==> WriteOf(w, p) in f.own
    ensures var (next, outcome) := ResolvePlain(w, cfg, st, p);
      && Sound(w, cfg, rd, f, next)
      && ((p.Lookup? && p.update) || next.log == st.log)
      && ((p.Lookup? ==> !p.update && Place(p.path, p.argument) in f.at && CacheKey(p.path, p.argument) !in f.dirty)
          ==> outcome == DirectPlain(w, cfg, rd, p))
  {
    if p.Lookup? {
      var key := CacheKey(p.path, p.argument);
      var (next, fetched) := Fetch(w, cfg, st, p);
      assert Serves(w, st.log, rd, f.at);
      var here := Place(p.path, p.argument);
      assert here in f.at && !p.update ==> w.read(st.log, here.path, here.argument) == rd(here.path, here.argument);
      forall q | q in f.at && '#' !in q.path && CacheKey(q.path, q.argument) in next.cache.Keys - f.dirty
        ensures Taken(w, cfg, q.path, rd(q.path, q.argument)) == Got(next.cache[CacheKey(q.path, q.argument)])
      {
        if CacheKey(q.path, q.argument) == key {
          CacheKeyInjective(q.path, q.argument, p.path, p.argument);
          assert q == here;
        }
      }
    }
  }

  // The references whose writes are accounted for, and those that no write can disturb.
  predicate Accounted(w: World, name: string, value: string, f: Frame) {
    UpdateKeysOf(Plains(name, value)) <= f.dirty && WritesOf(w, Plains(name, value)) <= f.own
  }

  predicate Separate(name: string, value: string, dirty: set<string>) {
    ReadsOnly(name, value) && KeysOf(Plains(name, value)) !! dirty
  }

  predicate Undisturbed(name: string, value: string, f: Frame) {
    Separate(name, value, f.dirty) && PlacesOf(Plains(name, value)) <= f.at
  }

  lemma BodyPlains(name: string, value: string, m: Span)
    requires m in FindAll(value)
    ensures Plains(name, m.Body(value)) <= Plains(name, value)
    ensures ReadsOnly(name, value) ==> ReadsOnly(name, m.Body(value))
  {
    assert HasInline(value);
    assert forall p | p in Plains(name, m.Body(value)) :: p in Plains(name, value);
  }

  lemma BodyFrame(w: World, name: string, value: string, m: Span, f: Frame)
    requires m in FindAll(value)
    ensures Accounted(w, name, value, f) ==> Accounted(w, name, m.Body(value), f)
    ensures Undisturbed(name, value, f) ==> Undisturbed(name, m.Body(value), f)
  {
    BodyPlains(name, value, m);
    var small, big := Plains(name, m.Body(value)), Plains(name, value);
    assert UpdateKeysOf(small) <= UpdateKeysOf(big);
    assert WritesOf(w, small) <= WritesOf(w, big);
    assert KeysOf(small) <= KeysOf(big);
    assert PlacesOf(small) <= PlacesOf(big);
  }

  lemma LeafFrame(w: World, name: string, value: string, f: Frame)
    requires !HasInline(value)
    ensures var p := ParsePlain(name, value);
      && (p.Lookup? ==> '#' !in p.path)
      && (Accounted(w, name, value, f) && p.Lookup? && p.update ==> CacheKey(p.path, p.argument) in f.dirty)
      && (Accounted(w, name, value, f) && Issues(w, p) ==> WriteOf(w, p) in f.own)
      && (Undisturbed(name, value, f) && p.Lookup? ==>
            !p.update && Place(p.path, p.argument) in f.at && CacheKey(p.path, p.argument) !in f.dirty)
  {
    var p := ParsePlain(name, value);
    if p.Lookup? {
      ParsedPath(name, value);
      var ps := Plains(name, value);
      assert p in ps;
      assert CacheKey(p.path, p.argument) in KeysOf(ps) && Place(p.path, p.argument) in PlacesOf(ps);
      if p.update {
        assert p in set q | q in ps && q.Lookup? && q.update;
        assert CacheKey(p.path, p.argument) in UpdateKeysOf(ps);
      }
      if Issues(w, p) { assert WriteOf(w, p) in WritesOf(w, ps); }
    }
  }

  lemma {:induction false} ResolveStep(w: World, cfg: Config, rd: Reader, f: Frame, st: State, name: string,
                                       value: string)
    requires Holds(w, rd, f) && Sound(w, cfg, rd, f, st) && Accounted(w, name, value, f)
    ensures var (next, outcome) := Resolve(w, cfg, st, name, value);
      && Sound(w, cfg, rd, f, next)
      && (ReadsOnly(name, value) ==> next.log == st.log)
      && (Undisturbed(name, value, f) ==> outcome == Direct(w, cfg, rd, name, value))
    decreases |value|, 1, 0
  {
    if HasInline(value) {
      ResolveSpansStep(w, cfg, rd, f, st, name, value, value, FindAll(value));
    } else {
      var p := ParsePlain(name, value);
      LeafFrame(w, name, value, f);
      assert p in Plains(name, value);
      PlainStep(w, cfg, rd, f, st, p);
    }
  }

  lemma {:induction false} ResolveSpansStep(w: World, cfg: Config, rd: Reader, f: Frame, st: State,
                                           name: string, value: string, cur: string, spans: seq<Span>)
    requires Holds(w, rd, f) && Sound(w, cfg, rd, f, st) && Accounted(w, name, value, f)
    requires forall m | m in spans :: m in FindAll(value) && m.In(value)
    ensures var (next, outcome) := ResolveSpans(w, cfg, st, name, value, cur, spans);
      && Sound(w, cfg, rd, f, next)
      && (ReadsOnly(name, value) ==> next.log == st.log)
      && (Undisturbed(name, value, f) ==> outcome == Spliced(cur, Texts(value, spans), Own(w, cfg, rd, name, value)))
    decreases |value|, 0, |spans|
  {
    if spans != [] {
      var m := spans[0];
      assert m in spans;
      BodyPlains(name, value, m);
      BodyFrame(w, name, value, m, f);
      ResolveStep(w, cfg, rd, f, st, name, m.Body(value));
      var (next, outcome) := Resolve(w, cfg, st, name, m.Body(value));
      SpansUnfold(w, cfg, rd, name, value, cur, spans);
      if !outcome.Error? {
        var cur' := if outcome.Resolved? then ReplaceAll(cur, m.Text(value), outcome.text) else cur;
        ResolveSpansStep(w, cfg, rd, f, next, name, value, cur', spans[1..]);
      }
    }
  }

  // The meaning of the loop, one span at a time.
  lemma SpansUnfold(w: World, cfg: Config, rd: Reader, name: string, value: string, cur: string, spans: seq<Span>)
    requires spans != [] && forall m | m in spans :: m.In(value)
    ensures forall m | m in spans[1..] :: m in spans
    ensures spans[0] in spans
    ensures var own := Own(w, cfg, rd, name, value);
      Spliced(cur, Texts(value, spans), own) ==
      match Direct(w, cfg, rd, name, spans[0].Body(value))
      case Error => Error
      case Missing => Spliced(cur, Texts(value, spans[1..]), own)
      case Resolved(text) =>
        Spliced(ReplaceAll(cur, spans[0].Text(value), text), Texts(value, spans[1..]), own)
  {
    var m := spans[0];
    assert m in spans;
    var own := Own(w, cfg, rd, name, value);
    OwnOfSpan(w, cfg, rd, name, value, m);
    assert Texts(value, spans) == [m.Text(value)] + Texts(value, spans[1..]);
    SplicedStep(cur, m.Text(value), Texts(value, spans[1..]), own);
  }

  lemma OwnOfSpan(w: World, cfg: Config, rd: Reader, name: string, value: string, m: Span)
    requires m.In(value)
    ensures Own(w, cfg, rd, name, value)(m.Text(value)) == Direct(w, cfg, rd, name, m.Body(value))
  {
    hide Direct;
    SliceOfSlice(value, m.start, m.end);
  }

  lemma SliceOfSlice(s: string, start: nat, end: nat)
    requires start + 3 <= end <= |s|
    ensures s[start..end][2..end - start - 1] == s[start + 2..end - 1]
  {
    var inner, direct := s[start..end][2..end - start - 1], s[start + 2..end - 1];
    forall k | 0 <= k < |direct| ensures inner[k] == direct[k] {
      assert inner[k] == s[start..end][k + 2] == s[start + 2 + k];
    }
  }

  lemma SplicedStep(cur: string, t: string, later: seq<string>, own: string -> Outcome)
    requires t != "" && "" !in later
    ensures Spliced(cur, [t] + later, own) ==
      match own(t)
      case Error => Error
      case Missing => Spliced(cur, later, own)
      case Resolved(text) => Spliced(ReplaceAll(cur, t, text), later, own)
  {
    var texts := [t] + later;
    assert texts[1..] == later && texts[0] == t;
    assert forall u | u in texts :: u == t || u in later;
    assert t in texts && forall u | u in later :: u in texts;
  }
}
