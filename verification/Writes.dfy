/** When resolving writes to the store: exactly, for one value and for a whole poll. */
module Writes {
  import opened Strings
  import opened Pattern
  import opened Vault
  import opened Resolver
  import opened Runs

  // ---------------------------------------------------------------------------------------
  // The recursion, flattened: the plain values in the order in which they are reached.
  // ---------------------------------------------------------------------------------------

  function Leaves(name: string, value: string): seq<Plain>
    decreases |value|, 1, 0
  {
    if HasInline(value) then LeavesOf(name, value, FindAll(value)) else [ParsePlain(name, value)]
  }

  function LeavesOf(name: string, value: string, spans: seq<Span>): seq<Plain>
    requires forall m | m in spans :: m.In(value)
    decreases |value|, 0, |spans|
  {
    if spans == [] then []
    else
      assert spans[0] in spans;
      Leaves(name, spans[0].Body(value)) + LeavesOf(name, value, spans[1..])
  }

  function AllLeaves(refs: map<string, string>, order: seq<string>): seq<Plain>
    requires forall name | name in order :: name in refs
    decreases |order|
  {
    if order == [] then [] else Leaves(order[0], refs[order[0]]) + AllLeaves(refs, order[1..])
  }

  // Plain values resolved one after the other, up to the first that fails.
  function RunLeaves(w: World, cfg: Config, st: State, leaves: seq<Plain>): (State, bool)
    decreases |leaves|
  {
    if leaves == [] then (st, true)
    else
      var (next, outcome) := ResolvePlain(w, cfg, st, leaves[0]);
      if outcome.Error? then (next, false) else RunLeaves(w, cfg, next, leaves[1..])
  }

  lemma {:induction false} RunSplit(w: World, cfg: Config, st: State, a: seq<Plain>, b: seq<Plain>)
    ensures RunLeaves(w, cfg, st, a + b) ==
      if RunLeaves(w, cfg, st, a).1 then RunLeaves(w, cfg, RunLeaves(w, cfg, st, a).0, b) else RunLeaves(w, cfg, st, a)
    decreases |a|
  {
    if a == [] {
      assert a + b == b;
    } else {
      assert (a + b)[1..] == a[1..] + b;
      RunSplit(w, cfg, ResolvePlain(w, cfg, st, a[0]).0, a[1..], b);
    }
  }

  lemma {:induction false} ResolveIsLeaves(w: World, cfg: Config, st: State, name: string, value: string)
    ensures var (next, outcome) := Resolve(w, cfg, st, name, value);
      RunLeaves(w, cfg, st, Leaves(name, value)) == (next, !outcome.Error?)
    decreases |value|, 1, 0
  {
    if HasInline(value) {
      SpansAreLeaves(w, cfg, st, name, value, value, FindAll(value));
    } else {
      assert [ParsePlain(name, value)][1..] == [];
    }
  }

  lemma {:induction false} SpansAreLeaves(w: World, cfg: Config, st: State, name: string, value: string, cur: string,
                                          spans: seq<Span>)
    requires forall m | m in spans :: m.In(value)
    ensures var (next, outcome) := ResolveSpans(w, cfg, st, name, value, cur, spans);
      RunLeaves(w, cfg, st, LeavesOf(name, value, spans)) == (next, !outcome.Error?)
    decreases |value|, 0, |spans|
  {
    if spans != [] {
      var m := spans[0];
      assert m in spans;
      ResolveIsLeaves(w, cfg, st, name, m.Body(value));
      RunSplit(w, cfg, st, Leaves(name, m.Body(value)), LeavesOf(name, value, spans[1..]));
      var (next, outcome) := Resolve(w, cfg, st, name, m.Body(value));
      if !outcome.Error? {
        var cur' := if outcome.Resolved? then ReplaceAll(cur, m.Text(value), outcome.text) else cur;
        SpansAreLeaves(w, cfg, next, name, value, cur', spans[1..]);
      }
    }
  }

  lemma {:induction false} ResolveAllIsLeaves(w: World, cfg: Config, st: State, refs: map<string, string>,
                                              order: seq<string>, out: map<string, string>)
    requires forall name | name in order :: name in refs
    ensures var (next, res) := ResolveAll(w, cfg, st, refs, order, out);
      RunLeaves(w, cfg, st, AllLeaves(refs, order)) == (next, res.Some?)
    decreases |order|
  {
    if order != [] {
      var name := order[0];
      ResolveIsLeaves(w, cfg, st, name, refs[name]);
      RunSplit(w, cfg, st, Leaves(name, refs[name]), AllLeaves(refs, order[1..]));
      var (next, outcome) := Resolve(w, cfg, st, name, refs[name]);
      if !outcome.Error? {
        var out' := if outcome.Resolved? then out[name := outcome.text] else out;
        ResolveAllIsLeaves(w, cfg, next, refs, order[1..], out');
      }
    }
  }

  // ---------------------------------------------------------------------------------------
  // Which sequences of plain values can write.
  // ---------------------------------------------------------------------------------------

  type Parser = string -> Option<Data>

  /** From a cache that holds at most the keys in `filled`, and exactly these where missing data is an
      error, as every read that was passed has then filled its own: an update whose payload parses is
      reached, with no cache entry to serve it, before anything that always fails.  That is a reference
      without a key, or an update whose payload does not parse and which no cache entry serves. */
  predicate CanWrite(parse: Parser, ignoreMissing: bool, leaves: seq<Plain>, filled: set<string>)
    decreases |leaves|
  {
    if leaves == [] then false
    else
      match leaves[0]
      case Literal(_) => CanWrite(parse, ignoreMissing, leaves[1..], filled)
      case Login => CanWrite(parse, ignoreMissing, leaves[1..], filled)
      case Malformed => false
      case Lookup(path, _, argument, update) =>
        var key := CacheKey(path, argument);
        if update && parse(argument).Some? && (ignoreMissing || key !in filled) then true
        else if update && key !in filled then false
        else CanWrite(parse, ignoreMissing, leaves[1..], filled + {key})
  }

  // The keys that one more plain value may fill.
  function Filling(p: Plain, filled: set<string>): set<string> {
    if p.Lookup? then filled + {CacheKey(p.path, p.argument)} else filled
  }

  lemma {:induction false} NoWrite(w: World, cfg: Config, st: State, leaves: seq<Plain>, filled: set<string>)
    requires st.cache.Keys <= filled && (!cfg.ignoreMissing ==> st.cache.Keys == filled)
    requires !CanWrite(w.parseJson, cfg.ignoreMissing, leaves, filled)
    ensures RunLeaves(w, cfg, st, leaves).0.log == st.log
    decreases |leaves|
  {
    if leaves != [] {
      var p := leaves[0];
      var (next, outcome) := ResolvePlain(w, cfg, st, p);
      if !outcome.Error? {
        NoWrite(w, cfg, next, leaves[1..], Filling(p, filled));
      }
    }
  }

  lemma {:induction false} LogGrows(w: World, cfg: Config, st: State, leaves: seq<Plain>)
    ensures st.log <= RunLeaves(w, cfg, st, leaves).0.log
    decreases |leaves|
  {
    if leaves != [] {
      LogGrows(w, cfg, ResolvePlain(w, cfg, st, leaves[0]).0, leaves[1..]);
    }
  }

  // A store in which a read is missing where it may be, except where an update with a bad payload
  // needs its data.
  function Rich(keys: set<string>): Data {
    map key | key in keys :: Null
  }

  function Generous(parse: Parser, ignoreMissing: bool, keys: set<string>): World {
    var full := Found(Secret(Some(map["data" := Null, "metadata" := Object(map[])]), 0));
    World((log, path, argument) => if ignoreMissing && parse(argument).Some? then Absent else full,
          (log, op) => Absent, (path, secret) => false, parse,
          v => Some(""), v => Rich(keys), (key, data) => Some(""), "")
  }

  predicate Parsed(leaves: seq<Plain>, keys: set<string>) {
    forall p | p in leaves && p.Lookup? :: '#' !in p.path && p.key in keys
  }

  ghost predicate Warm(parse: Parser, ignoreMissing: bool, keys: set<string>, filled: set<string>,
                       cache: map<string, Data>)
  {
    && (forall path, argument | '#' !in path && CacheKey(path, argument) in cache ::
          && (ignoreMissing ==> parse(argument).None?)
          && CacheKey(path, argument) in filled && cache[CacheKey(path, argument)] == Rich(keys))
    && (forall path, argument |
          '#' !in path && (ignoreMissing ==> parse(argument).None?) && CacheKey(path, argument) in filled ::
          CacheKey(path, argument) in cache)
  }

  // In that store everything before the update goes through.
  lemma GenerousStep(parse: Parser, cfg: Config, keys: set<string>, st: State, p: Plain, filled: set<string>)
    requires p.Lookup? && '#' !in p.path && p.key in keys
    requires Warm(parse, cfg.ignoreMissing, keys, filled, st.cache)
    requires p.update ==> CacheKey(p.path, p.argument) in filled && !(cfg.ignoreMissing && parse(p.argument).Some?)
    ensures var (next, outcome) := ResolvePlain(Generous(parse, cfg.ignoreMissing, keys), cfg, st, p);
      && !outcome.Error? && next.log == st.log
      && Warm(parse, cfg.ignoreMissing, keys, Filling(p, filled), next.cache)
  {
    var key := CacheKey(p.path, p.argument);
    var (next, outcome) := ResolvePlain(Generous(parse, cfg.ignoreMissing, keys), cfg, st, p);
    assert next.cache ==
      if cfg.ignoreMissing && parse(p.argument).Some? then st.cache else st.cache[key := Rich(keys)];
    forall path, argument | '#' !in path && CacheKey(path, argument) == key
      ensures path == p.path && argument == p.argument
    {
      CacheKeyInjective(path, argument, p.path, p.argument);
    }
  }

  lemma {:induction false} GenerousWrites(parse: Parser, cfg: Config, keys: set<string>, st: State, leaves: seq<Plain>,
                                          filled: set<string>)
    requires Parsed(leaves, keys) && Warm(parse, cfg.ignoreMissing, keys, filled, st.cache)
    requires CanWrite(parse, cfg.ignoreMissing, leaves, filled)
    ensures RunLeaves(Generous(parse, cfg.ignoreMissing, keys), cfg, st, leaves).0.log != st.log
    decreases |leaves|
  {
    var w, p := Generous(parse, cfg.ignoreMissing, keys), leaves[0];
    assert p in leaves && forall q | q in leaves[1..] :: q in leaves;
    var (next, outcome) := ResolvePlain(w, cfg, st, p);
    if p.Lookup? && p.update && parse(p.argument).Some?
       && (cfg.ignoreMissing || CacheKey(p.path, p.argument) !in filled) {
      assert CacheKey(p.path, p.argument) !in st.cache;
      assert |next.log| == |st.log| + 1;
      LogGrows(w, cfg, next, leaves[1..]);
    } else if p.Lookup? {
      GenerousStep(parse, cfg, keys, st, p, filled);
      GenerousWrites(parse, cfg, keys, next, leaves[1..], Filling(p, filled));
    } else {
      GenerousWrites(parse, cfg, keys, next, leaves[1..], filled);
    }
  }

  lemma {:induction false} LeavesArePlains(name: string, value: string)
    ensures forall p | p in Leaves(name, value) :: p in Plains(name, value) && (p.Lookup? ==> '#' !in p.path)
    decreases |value|, 1, 0
  {
    if HasInline(value) {
      SpanLeavesArePlains(name, value, FindAll(value));
    } else if ParsePlain(name, value).Lookup? {
      ParsedPath(name, value);
    }
  }

  lemma {:induction false} SpanLeavesArePlains(name: string, value: string, spans: seq<Span>)
    requires forall m | m in spans :: m in FindAll(value) && m.In(value)
    ensures forall p | p in LeavesOf(name, value, spans) :: p in Plains(name, value) && (p.Lookup? ==> '#' !in p.path)
    decreases |value|, 0, |spans|
  {
    if spans != [] {
      assert spans[0] in spans;
      LeavesArePlains(name, spans[0].Body(value));
      BodyPlains(name, value, spans[0]);
      SpanLeavesArePlains(name, value, spans[1..]);
    }
  }

  lemma {:induction false} AllLeavesParsed(refs: map<string, string>, order: seq<string>)
    requires forall name | name in order :: name in refs
    ensures forall p | p in AllLeaves(refs, order) && p.Lookup? :: '#' !in p.path
    decreases |order|
  {
    if order != [] {
      LeavesArePlains(order[0], refs[order[0]]);
      AllLeavesParsed(refs, order[1..]);
    }
  }

  lemma {:induction false} ReadersCannotWrite(parse: Parser, ignoreMissing: bool, leaves: seq<Plain>,
                                              filled: set<string>)
    requires CanWrite(parse, ignoreMissing, leaves, filled)
    ensures exists p :: p in leaves && p.Lookup? && p.update
    decreases |leaves|
  {
    assert leaves[0] in leaves;
    if !(leaves[0].Lookup? && leaves[0].update) {
      ReadersCannotWrite(parse, ignoreMissing, leaves[1..], Filling(leaves[0], filled));
    }
  }

  function KeysNamed(leaves: seq<Plain>): set<string> {
    set p | p in leaves && p.Lookup? :: p.key
  }

  // A store in which the update is carried out.
  lemma WritingWorld(parse: Parser, cfg: Config, leaves: seq<Plain>, log: seq<Write>) returns (w: World)
    requires forall p | p in leaves && p.Lookup? :: '#' !in p.path
    requires CanWrite(parse, cfg.ignoreMissing, leaves, {})
    ensures w.parseJson == parse && RunLeaves(w, cfg, State(map[], log, []), leaves).0.log != log
  {
    var keys := KeysNamed(leaves);
    w := Generous(parse, cfg.ignoreMissing, keys);
    GenerousWrites(parse, cfg, keys, State(map[], log, []), leaves, {});
  }

  // ---------------------------------------------------------------------------------------
  // Results.
  // ---------------------------------------------------------------------------------------

  /** Resolving a value with a fresh injector writes in no store, whatever it answers, if and only if
      under this configuration its text cannot write. */
  lemma WritesExactly(parse: Parser, cfg: Config, name: string, value: string)
    ensures (forall w: World, log: seq<Write> | w.parseJson == parse ::
               Resolve(w, cfg, State(map[], log, []), name, value).0.log == log)
      <==> !CanWrite(parse, cfg.ignoreMissing, Leaves(name, value), {})
  {
    var leaves := Leaves(name, value);
    LeavesArePlains(name, value);
    if CanWrite(parse, cfg.ignoreMissing, leaves, {}) {
      var w := WritingWorld(parse, cfg, leaves, []);
      ResolveIsLeaves(w, cfg, State(map[], [], []), name, value);
      assert Resolve(w, cfg, State(map[], [], []), name, value).0.log != [];
    } else {
      forall w: World, log: seq<Write> | w.parseJson == parse
        ensures Resolve(w, cfg, State(map[], log, []), name, value).0.log == log
      {
        ResolveIsLeaves(w, cfg, State(map[], log, []), name, value);
        NoWrite(w, cfg, State(map[], log, []), leaves, {});
      }
    }
  }

  /** The guard of the watcher: a value that passes it and holds no update nested in a match body
      never writes; with one, it writes in some store if and only if its text can. */
  lemma UpdateGuardExact(parse: Parser, cfg: Config, name: string, value: string)
    requires !IsUpdateReference(value)
    ensures CanWrite(parse, cfg.ignoreMissing, Leaves(name, value), {}) ==> HasNestedUpdate(value)
    ensures (exists w: World, log: seq<Write> ::
               w.parseJson == parse && Resolve(w, cfg, State(map[], log, []), name, value).0.log != log)
      <==> HasNestedUpdate(value) && CanWrite(parse, cfg.ignoreMissing, Leaves(name, value), {})
  {
    WritesExactly(parse, cfg, name, value);
    GuardedUpdates(name, value);
    LeavesArePlains(name, value);
    if CanWrite(parse, cfg.ignoreMissing, Leaves(name, value), {}) {
      ReadersCannotWrite(parse, cfg.ignoreMissing, Leaves(name, value), {});
    }
  }

  lemma {:induction false} PathsWriteNothing(w: World, cfg: Config, st: State, entries: seq<string>,
                                             out: map<string, string>)
    ensures ResolvePaths(w, cfg, st, entries, out).0.log == st.log
    decreases |entries|
  {
    if entries != [] {
      var split := SplitN(entries[0], '#', 2);
      var (next, fetched) := ReadVaultPath(w, cfg, st, split[0], if |split| == 2 then split[1] else "-1", false);
      if fetched.Got? && forall key | key in fetched.data :: w.toText(fetched.data[key]).Some? {
        PathsWriteNothing(w, cfg, next, entries[1..], out + TextMap(w, fetched.data));
      } else if fetched.NoData? {
        PathsWriteNothing(w, cfg, next, entries[1..], out);
      }
    }
  }

  lemma LastStateIsLeaves(w: World, cfg: Config, st: State, refs: map<string, string>, order: seq<string>,
                          entries: seq<string>)
    requires forall name | name in order :: name in refs
    ensures LastState(w, cfg, st, refs, order, entries).log == RunLeaves(w, cfg, st, AllLeaves(refs, order)).0.log
  {
    ResolveAllIsLeaves(w, cfg, st, refs, order, map[]);
    var (mid, res) := ResolveAll(w, cfg, st, refs, order, map[]);
    if res.Some? { PathsWriteNothing(w, cfg, mid, entries, res.value); }
  }

  /** A whole poll, which starts from an empty cache: in a given order it writes in no store if and
      only if what is reached in this order cannot write. */
  lemma PollWritesExactly(parse: Parser, cfg: Config, refs: map<string, string>, order: seq<string>,
                          entries: seq<string>)
    requires forall name | name in order :: name in refs
    ensures (forall w: World, log: seq<Write> | w.parseJson == parse ::
               LastState(w, cfg, State(map[], log, []), refs, order, entries).log == log)
      <==> !CanWrite(parse, cfg.ignoreMissing, AllLeaves(refs, order), {})
  {
    var leaves := AllLeaves(refs, order);
    AllLeavesParsed(refs, order);
    if CanWrite(parse, cfg.ignoreMissing, leaves, {}) {
      var w := WritingWorld(parse, cfg, leaves, []);
      LastStateIsLeaves(w, cfg, State(map[], [], []), refs, order, entries);
      assert LastState(w, cfg, State(map[], [], []), refs, order, entries).log != [];
    } else {
      forall w: World, log: seq<Write> | w.parseJson == parse
        ensures LastState(w, cfg, State(map[], log, []), refs, order, entries).log == log
      {
        LastStateIsLeaves(w, cfg, State(map[], log, []), refs, order, entries);
        NoWrite(w, cfg, State(map[], log, []), leaves, {});
      }
    }
  }

  // ---------------------------------------------------------------------------------------
  // The order of iteration does not matter if every payload parses.
  // ---------------------------------------------------------------------------------------

  predicate AllParse(parse: Parser, leaves: seq<Plain>) {
    forall p | p in leaves && p.Lookup? && p.update :: parse(p.argument).Some?
  }

  // With less in the cache, what could write still can.
  lemma {:induction false} LessFilled(parse: Parser, ignoreMissing: bool, leaves: seq<Plain>, less: set<string>,
                                      more: set<string>)
    requires AllParse(parse, leaves) && less <= more && CanWrite(parse, ignoreMissing, leaves, more)
    ensures CanWrite(parse, ignoreMissing, leaves, less)
    decreases |leaves|
  {
    var p := leaves[0];
    assert p in leaves && forall q | q in leaves[1..] :: q in leaves;
    var here := p.Lookup? && p.update;
    if !(here && (ignoreMissing || CacheKey(p.path, p.argument) !in less)) {
      LessFilled(parse, ignoreMissing, leaves[1..], Filling(p, less), Filling(p, more));
    }
  }

  lemma {:induction false} FrontCanWrite(parse: Parser, ignoreMissing: bool, a: seq<Plain>, b: seq<Plain>,
                                         filled: set<string>)
    requires CanWrite(parse, ignoreMissing, a, filled)
    ensures CanWrite(parse, ignoreMissing, a + b, filled)
    decreases |a|
  {
    var p := a[0];
    assert (a + b)[1..] == a[1..] + b;
    if CanWrite(parse, ignoreMissing, a[1..], Filling(p, filled)) {
      FrontCanWrite(parse, ignoreMissing, a[1..], b, Filling(p, filled));
    }
  }

  // What writes is in the one part or in the other.
  lemma {:induction false} EitherCanWrite(parse: Parser, ignoreMissing: bool, a: seq<Plain>, b: seq<Plain>,
                                          filled: set<string>)
    requires AllParse(parse, a + b) && CanWrite(parse, ignoreMissing, a + b, filled)
    ensures CanWrite(parse, ignoreMissing, a, filled) || CanWrite(parse, ignoreMissing, b, {})
    decreases |a|
  {
    if a == [] {
      assert a + b == b;
      LessFilled(parse, ignoreMissing, b, {}, filled);
    } else {
      var p := a[0];
      assert (a + b)[1..] == a[1..] + b && (a + b)[0] == p;
      assert forall q | q in (a + b)[1..] :: q in a + b;
      assert p in a + b;
      if !CanWrite(parse, ignoreMissing, a, filled) {
        EitherCanWrite(parse, ignoreMissing, a[1..], b, Filling(p, filled));
      }
    }
  }

  predicate NameCanWrite(parse: Parser, ignoreMissing: bool, refs: map<string, string>, name: string)
    requires name in refs
  {
    CanWrite(parse, ignoreMissing, Leaves(name, refs[name]), {})
  }

  predicate PayloadsParse(parse: Parser, refs: map<string, string>) {
    forall name | name in refs :: AllParse(parse, Leaves(name, refs[name]))
  }

  lemma {:induction false} OrderParses(parse: Parser, refs: map<string, string>, order: seq<string>)
    requires PayloadsParse(parse, refs) && forall name | name in order :: name in refs
    ensures AllParse(parse, AllLeaves(refs, order))
    decreases |order|
  {
    if order != [] {
      assert order[0] in refs;
      OrderParses(parse, refs, order[1..]);
    }
  }

  lemma {:induction false} SomeNameCanWrite(parse: Parser, ignoreMissing: bool, refs: map<string, string>,
                                            order: seq<string>)
    requires PayloadsParse(parse, refs) && forall name | name in order :: name in refs
    requires CanWrite(parse, ignoreMissing, AllLeaves(refs, order), {})
    ensures exists name :: name in refs && NameCanWrite(parse, ignoreMissing, refs, name)
    decreases |order|
  {
    var name, later := order[0], order[1..];
    assert name in refs;
    OrderParses(parse, refs, order);
    EitherCanWrite(parse, ignoreMissing, Leaves(name, refs[name]), AllLeaves(refs, later), {});
    if !NameCanWrite(parse, ignoreMissing, refs, name) {
      SomeNameCanWrite(parse, ignoreMissing, refs, later);
    }
  }

  // One of the orders in which these names can be iterated.
  lemma {:induction false} SomeOrder(keys: set<string>) returns (order: seq<string>)
    ensures Enumerates(order, keys)
    decreases |keys|, 1
  {
    order := [];
    if keys != {} {
      var name :| name in keys;
      order := FirstOf(keys, name);
    }
  }

  // One that begins with a given name.
  lemma {:induction false} FirstOf(keys: set<string>, name: string) returns (order: seq<string>)
    requires name in keys
    ensures Enumerates(order, keys) && order != [] && order[0] == name
    decreases |keys|, 0
  {
    var rest := SomeOrder(keys - {name});
    order := [name] + rest;
    assert forall n :: n in rest <==> n in set m | m in rest;
    assert forall n :: n in order <==> n == name || n in rest;
    assert (set m | m in order) == {name} + set m | m in rest;
  }

  /** If every payload parses, the order of iteration does not matter: polling writes in no store and
      no order if and only if no template can write by itself. */
  lemma PollWritesPointwise(parse: Parser, cfg: Config, refs: map<string, string>, entries: seq<string>)
    requires PayloadsParse(parse, refs)
    ensures (forall w: World, log: seq<Write>, order: seq<string> |
               && w.parseJson == parse && Enumerates(order, refs.Keys)
               && (forall name | name in order :: name in refs) ::
               LastState(w, cfg, State(map[], log, []), refs, order, entries).log == log)
      <==> forall name | name in refs :: !NameCanWrite(parse, cfg.ignoreMissing, refs, name)
  {
    if name :| name in refs && NameCanWrite(parse, cfg.ignoreMissing, refs, name) {
      var order := FirstOf(refs.Keys, name);
      forall n | n in order ensures n in refs { assert n in set m | m in order; }
      FrontCanWrite(parse, cfg.ignoreMissing, Leaves(name, refs[name]), AllLeaves(refs, order[1..]), {});
      PollWritesExactly(parse, cfg, refs, order, entries);
    } else {
      forall w: World, log: seq<Write>, order: seq<string> |
        && w.parseJson == parse && Enumerates(order, refs.Keys)
        && (forall name | name in order :: name in refs)
        ensures LastState(w, cfg, State(map[], log, []), refs, order, entries).log == log
      {
        PollWritesExactly(parse, cfg, refs, order, entries);
        if CanWrite(parse, cfg.ignoreMissing, AllLeaves(refs, order), {}) {
          SomeNameCanWrite(parse, cfg.ignoreMissing, refs, order);
        }
      }
    }
  }

  // ---------------------------------------------------------------------------------------
  // A read and an update under one cache key.
  // ---------------------------------------------------------------------------------------

  predicate OneFails(w: World, data: Data, key: string, other: string) {
    Extract(w, key, data).Error? || Extract(w, other, data).Error?
  }

  // What two references to the same data come to.
  function BothFrom(w: World, data: Data, a: string, keyA: string, b: string, keyB: string): Option<map<string, string>>
  {
    if OneFails(w, data, keyA, keyB) then None
    else Some(map[a := Extract(w, keyA, data).text, b := Extract(w, keyB, data).text])
  }

  // The first of two references fills the cache, and the second is served from it.
  lemma SharedEntry(w: World, cfg: Config, st: State, refs: map<string, string>, a: string, b: string, p: Plain,
                    q: Plain, data: Data)
    requires a != b && a in refs && b in refs && !HasInline(refs[a]) && !HasInline(refs[b])
    requires ParsePlain(a, refs[a]) == p && ParsePlain(b, refs[b]) == q
    requires p.Lookup? && q.Lookup? && p.path == q.path && p.argument == q.argument
    requires Fetch(w, cfg, st, p).1 == Got(data)
    ensures var (next, res) := ResolveAll(w, cfg, st, refs, [a, b], map[]);
      next.log == Fetch(w, cfg, st, p).0.log && res == BothFrom(w, data, a, p.key, b, q.key)
  {
    assert [a, b][1..] == [b] && [b][1..] == [];
    var next := Fetch(w, cfg, st, p).0;
    assert Fetch(w, cfg, next, q).1 == Got(data) && Fetch(w, cfg, next, q).0.log == next.log;
    var x, y := Extract(w, p.key, data), Extract(w, q.key, data);
    assert Resolve(w, cfg, st, a, refs[a]) == (next, x);
    assert Resolve(w, cfg, next, b, refs[b]).1 == y;
    if x.Resolved? && y.Resolved? {
      assert ResolveAll(w, cfg, next, refs, [b], map[a := x.text]).1 == Some(map[a := x.text][b := y.text]);
    }
  }

  // The results of two references to one place, of which the first is served `first`: if that is
  // data so is the second, and otherwise the second is served what it fetches itself.
  function PairResult(w: World, cfg: Config, first: Fetched, second: Fetched, a: string, keyA: string, b: string,
                      keyB: string)
    : Option<map<string, string>>
  {
    if first.Got? then BothFrom(w, first.data, a, keyA, b, keyB)
    else if first.Fault? || !cfg.ignoreMissing then None
    else
      match Conclude(w, cfg, keyB, second)
      case Error => None
      case Missing => Some(map[])
      case Resolved(y) => Some(map[b := y])
  }

  lemma OneRun(w: World, cfg: Config, st: State, refs: map<string, string>, name: string)
    requires name in refs
    ensures var (next, outcome) := Resolve(w, cfg, st, name, refs[name]);
      ResolveAll(w, cfg, st, refs, [name], map[]) ==
      match outcome
      case Error => (next, None)
      case Missing => (next, Some(map[]))
      case Resolved(y) => (next, Some(map[name := y]))
  {
    assert [name][1..] == [];
    var (next, outcome) := Resolve(w, cfg, st, name, refs[name]);
    var out: map<string, string> := if outcome.Resolved? then map[][name := outcome.text] else map[];
    assert ResolveAll(w, cfg, next, refs, [], out) == (next, Some(out));
  }

  lemma PairRuns(w: World, cfg: Config, st: State, refs: map<string, string>, a: string, b: string, p: Plain, q: Plain)
    requires a != b && a in refs && b in refs && !HasInline(refs[a]) && !HasInline(refs[b])
    requires ParsePlain(a, refs[a]) == p && ParsePlain(b, refs[b]) == q
    requires p.Lookup? && q.Lookup? && p.path == q.path && p.argument == q.argument
    ensures var (s1, first) := Fetch(w, cfg, st, p);
      var (s2, second) := Fetch(w, cfg, s1, q);
      var (next, res) := ResolveAll(w, cfg, st, refs, [a, b], map[]);
      && res == PairResult(w, cfg, first, second, a, p.key, b, q.key)
      && next.log == if first.NoData? && cfg.ignoreMissing then s2.log else s1.log
  {
    var (s1, first) := Fetch(w, cfg, st, p);
    var (s2, second) := Fetch(w, cfg, s1, q);
    if first.Got? {
      SharedEntry(w, cfg, st, refs, a, b, p, q, first.data);
    } else {
      assert [a, b][1..] == [b] && [b][1..] == [];
      assert Resolve(w, cfg, st, a, refs[a]) == (s1, Conclude(w, cfg, p.key, first));
      assert Resolve(w, cfg, s1, b, refs[b]) == (s2, Conclude(w, cfg, q.key, second));
      OneRun(w, cfg, s1, refs, b);
    }
  }

  // What the update is answered, what the read is answered before it and after it.
  function UpdateReply(w: World, cfg: Config, log: seq<Write>, p: Plain): Fetched
    requires p.Lookup?
  {
    if Issues(w, p) then Taken(w, cfg, p.path, w.write(log, WriteOf(w, p))) else Fault
  }

  function ReadReply(w: World, cfg: Config, log: seq<Write>, q: Plain): Fetched
    requires q.Lookup?
  {
    Taken(w, cfg, q.path, w.read(log, q.path, q.argument))
  }

  function LogAfter(w: World, log: seq<Write>, p: Plain): seq<Write> {
    if Issues(w, p) then log + [WriteOf(w, p)] else log
  }

  /** Whether the two orders give the same result, from the replies to the update, to the read, and to
      the read after the update. */
  predicate OrdersAgree(w: World, cfg: Config, update: Fetched, read: Fetched, reread: Fetched, keyA: string,
                        keyB: string)
  {
    match (update, read)
    case (Got(d), Got(e)) =>
      || (OneFails(w, d, keyA, keyB) && OneFails(w, e, keyA, keyB))
      || (&& !OneFails(w, d, keyA, keyB)
          && Extract(w, keyA, d) == Extract(w, keyA, e) && Extract(w, keyB, d) == Extract(w, keyB, e))
    case (Got(d), NoData) => if cfg.ignoreMissing then Extract(w, keyA, d).Error? else OneFails(w, d, keyA, keyB)
    case (Got(d), Fault) => OneFails(w, d, keyA, keyB)
    case (NoData, Got(e)) =>
      OneFails(w, e, keyA, keyB) && (cfg.ignoreMissing ==> Conclude(w, cfg, keyB, reread).Error?)
    case (NoData, NoData) => cfg.ignoreMissing ==> reread.NoData?
    case (NoData, Fault) => cfg.ignoreMissing ==> Conclude(w, cfg, keyB, reread).Error?
    case (Fault, Got(e)) => OneFails(w, e, keyA, keyB)
    case (Fault, _) => true
  }

  /** An update `a` and a read `b` of one path with one argument: the order in which the environment
      happens to be iterated decides.  If `a` comes first it writes; otherwise it writes only where the
      read found nothing and this is ignored, as it is served from what was read.  The two orders give
      the same result if and only if `OrdersAgree` says so, whatever the store answers. */
  lemma SharedKeyExactly(w: World, cfg: Config, log: seq<Write>, refs: map<string, string>,
                         a: string, b: string, p: Plain, q: Plain)
    requires a != b && a in refs && b in refs && !HasInline(refs[a]) && !HasInline(refs[b])
    requires ParsePlain(a, refs[a]) == p && ParsePlain(b, refs[b]) == q
    requires p.Lookup? && q.Lookup? && p.update && !q.update && p.path == q.path && p.argument == q.argument
    ensures var st := State(map[], log, []);
      var updateFirst := ResolveAll(w, cfg, st, refs, [a, b], map[]);
      var readFirst := ResolveAll(w, cfg, st, refs, [b, a], map[]);
      var update, read := UpdateReply(w, cfg, log, p), ReadReply(w, cfg, log, q);
      && updateFirst.0.log == LogAfter(w, log, p)
      && readFirst.0.log == (if read.NoData? && cfg.ignoreMissing then LogAfter(w, log, p) else log)
      && (updateFirst.1 == readFirst.1
          <==> OrdersAgree(w, cfg, update, read, ReadReply(w, cfg, LogAfter(w, log, p), q), p.key, q.key))
  {
    var st := State(map[], log, []);
    PairRuns(w, cfg, st, refs, a, b, p, q);
    PairRuns(w, cfg, st, refs, b, a, q, p);
    var update, read := UpdateReply(w, cfg, log, p), ReadReply(w, cfg, log, q);
    var reread := ReadReply(w, cfg, LogAfter(w, log, p), q);
    UpdateFirst(w, cfg, log, p, q);
    ReadFirst(w, cfg, log, p, q);
    SameResults(w, cfg, update, read, reread, a, p.key, b, q.key);
  }

  lemma UpdateFirst(w: World, cfg: Config, log: seq<Write>, p: Plain, q: Plain)
    requires p.Lookup? && q.Lookup? && p.update && !q.update && p.path == q.path && p.argument == q.argument
    ensures var (s1, first) := Fetch(w, cfg, State(map[], log, []), p);
      var (s2, second) := Fetch(w, cfg, s1, q);
      && first == UpdateReply(w, cfg, log, p) && s1.log == LogAfter(w, log, p) && s2.log == s1.log
      && (!first.Got? ==> second == ReadReply(w, cfg, LogAfter(w, log, p), q))
  {
  }

  lemma ReadFirst(w: World, cfg: Config, log: seq<Write>, p: Plain, q: Plain)
    requires p.Lookup? && q.Lookup? && p.update && !q.update && p.path == q.path && p.argument == q.argument
    ensures var (s1, first) := Fetch(w, cfg, State(map[], log, []), q);
      var (s2, second) := Fetch(w, cfg, s1, p);
      && first == ReadReply(w, cfg, log, q) && s1.log == log
      && (!first.Got? ==> second == UpdateReply(w, cfg, log, p) && s2.log == LogAfter(w, log, p))
  {
  }

  lemma SameResults(w: World, cfg: Config, update: Fetched, read: Fetched, reread: Fetched,
                    a: string, keyA: string, b: string, keyB: string)
    requires a != b
    ensures PairResult(w, cfg, update, reread, a, keyA, b, keyB) == PairResult(w, cfg, read, update, b, keyB, a, keyA)
      <==> OrdersAgree(w, cfg, update, read, reread, keyA, keyB)
  {
    var u := PairResult(w, cfg, update, reread, a, keyA, b, keyB);
    var v := PairResult(w, cfg, read, update, b, keyB, a, keyA);
    if update.Got? && read.Got? {
      SameBoth(w, update.data, read.data, a, keyA, b, keyB);
    } else {
      // One of the results lacks the name that the other one has.
      assert update.Got? && u.Some? ==> b in u.value;
      assert !update.Got? && u.Some? ==> a !in u.value;
      assert read.Got? && v.Some? ==> a in v.value;
      assert !read.Got? && v.Some? ==> b !in v.value;
    }
  }

  lemma SameBoth(w: World, d: Data, e: Data, a: string, keyA: string, b: string, keyB: string)
    requires a != b
    ensures BothFrom(w, d, a, keyA, b, keyB) == BothFrom(w, e, b, keyB, a, keyA) <==>
      || (OneFails(w, d, keyA, keyB) && OneFails(w, e, keyA, keyB))
      || (&& !OneFails(w, d, keyA, keyB)
          && Extract(w, keyA, d) == Extract(w, keyA, e) && Extract(w, keyB, d) == Extract(w, keyB, e))
  {
    if !OneFails(w, d, keyA, keyB) && !OneFails(w, e, keyA, keyB) {
      var m, n := BothFrom(w, d, a, keyA, b, keyB).value, BothFrom(w, e, b, keyB, a, keyA).value;
      assert m[a] == Extract(w, keyA, d).text && n[a] == Extract(w, keyA, e).text;
      assert m[b] == Extract(w, keyB, d).text && n[b] == Extract(w, keyB, e).text;
      assert m.Keys == {a, b} && n.Keys == {a, b};
      assert m == n <==> m[a] == n[a] && m[b] == n[b];
    }
  }
}
