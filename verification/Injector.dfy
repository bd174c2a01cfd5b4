/** The secret injector as the program runs it: a cache filled in place, a client that keeps
    state on the other side, and a map that the inject callback writes. */
module Injector {
  import opened Strings
  import opened Pattern
  import opened Vault
  import opened Resolver
  import opened Runs

  // What the client leaves behind in the outside world.
  class Client {
    var log: seq<Write>
    var leases: seq<string>

    constructor ()
      ensures log == [] && leases == []
    {
      log, leases := [], [];
    }
  }

  // The map that an inject callback fills.
  class SecretSet {
    var entries: map<string, string>

    constructor ()
      ensures entries == map[]
    {
      entries := map[];
    }

    method Inject(key: string, value: string)
      modifies this
      ensures entries == old(entries)[key := value]
    {
      entries := entries[key := value];
    }
  }

  class SecretInjector {
    const w: World
    const cfg: Config
    const client: Client
    var secretCache: map<string, Data>

    constructor (w: World, cfg: Config, client: Client)
      ensures this.w == w && this.cfg == cfg && this.client == client && secretCache == map[]
    {
      this.w, this.cfg, this.client := w, cfg, client;
      secretCache := map[];
    }

    function Current(): State
      reads this, client
    {
      State(secretCache, client.log, client.leases)
    }

    method ReadPath(path: string, versionOrData: string, update: bool) returns (fetched: Fetched)
      modifies client
      ensures (Current(), fetched) == ReadVaultPath(w, cfg, old(Current()), path, versionOrData, update)
    {
      var reply: Reply;
      if update {
        var data := w.parseJson(versionOrData);
        if data.None? { return Fault; }
        var op := Write(path, data.value);
        reply := w.write(client.log, op);
        client.log := client.log + [op];
      } else {
        reply := w.read(client.log, path, versionOrData);
      }
      if Leased(cfg, reply) {
        if !w.renew(path, reply.secret) { return Fault; }
        client.leases := client.leases + [path];
      }
      match reply
      case Failed => fetched := Fault;
      case Absent => fetched := NoData;
      case Found(secret) => fetched := Contents(w, secret);
    }

    // Lines 127-170: through the cache to the key or template.
    method InjectLookup(name: string, valuePath: string, key: string, versionOrData: string, update: bool,
                        sink: SecretSet)
      returns (ok: bool)
      modifies this, client, sink
      ensures var p := Lookup(valuePath, key, versionOrData, update);
        var (next, outcome) := ResolvePlain(w, cfg, old(Current()), p);
        Current() == next && Took(ok, outcome, name, old(sink.entries), sink.entries)
    {
      var secretCacheKey := CacheKey(valuePath, versionOrData);
      var fetched;
      if secretCacheKey in secretCache {
        fetched := Got(secretCache[secretCacheKey]);
      } else {
        fetched := ReadPath(valuePath, versionOrData, update);
      }
      match fetched
      case Fault => return false;
      case NoData => return cfg.ignoreMissing;
      case Got(data) =>
        secretCache := secretCache[secretCacheKey := data];
        ok := InjectKey(name, key, data, sink);
    }

    method InjectKey(name: string, key: string, data: Data, sink: SecretSet) returns (ok: bool)
      modifies sink
      ensures Took(ok, Extract(w, key, data), name, old(sink.entries), sink.entries)
    {
      var text;
      if IsGoTemplate(key) {
        text := w.render(key, data);
      } else if key in data {
        text := w.toText(data[key]);
      } else {
        return false;
      }
      if text.None? { return false; }
      sink.Inject(name, text.value);
      return true;
    }

    // The part of InjectSecretsFromVaultWithContext for a value without inline references.
    method InjectPlain(name: string, original: string, sink: SecretSet) returns (ok: bool)
      modifies this, client, sink
      ensures var (next, outcome) := ResolvePlain(w, cfg, old(Current()), ParsePlain(name, original));
        Current() == next && Took(ok, outcome, name, old(sink.entries), sink.entries)
    {
      var value, update := original, false;
      if HasPrefix(value, ">>" + Marker) {
        value := TrimPrefix(value, ">>");
        update := true;
      }
      if !HasPrefix(value, Marker) {
        sink.Inject(name, value);
        return true;
      }
      var valuePath := TrimPrefix(value, Marker);
      if name == "VAULT_TOKEN" && valuePath == "login" {
        sink.Inject(name, w.token);
        return true;
      }
      var split := SplitN(valuePath, '#', 3);
      if |split| < 2 { return false; }
      var versionOrData := if update then "{}" else "-1";
      if |split| == 3 { versionOrData := split[2]; }
      ok := InjectLookup(name, split[0], split[1], versionOrData, update, sink);
    }

    // Lines 70-80: every match of the original value, replaced in the changing one.
    method InjectInline(name: string, original: string, sink: SecretSet, ghost bound: nat) returns (ok: bool)
      requires HasInline(original) && |original| <= bound
      modifies this, client, sink
      ensures var (next, outcome) := Resolve(w, cfg, old(Current()), name, original);
        Current() == next && Took(ok, outcome, name, old(sink.entries), sink.entries)
      decreases bound, 0
    {
      var value, spans := original, FindAll(original);
      var i := 0;
      while i < |spans|
        invariant 0 <= i <= |spans|
        invariant sink.entries == old(sink.entries)
        invariant ResolveSpans(w, cfg, Current(), name, original, value, spans[i..])
               == ResolveSpans(w, cfg, old(Current()), name, original, original, spans)
      {
        var m := spans[i];
        assert m in spans && spans[i..][0] == m && spans[i..][1..] == spans[i + 1..];
        ghost var before := Current();
        var mapData, fine, _ := GetDataFromVault(map[name := m.Body(original)], bound - 1);
        SingleReference(w, cfg, before, name, m.Body(original));
        if !fine { return false; }
        if name in mapData {
          value := ReplaceAll(value, m.Text(original), mapData[name]);
        }
        i := i + 1;
      }
      sink.Inject(name, value);
      return true;
    }

    /** The loop over the references.  The order is whatever the iteration of the map yields. */
    method InjectSecretsFromVault(references: map<string, string>, sink: SecretSet, ghost bound: nat)
      returns (ok: bool, ghost order: seq<string>)
      requires forall name | name in references :: |references[name]| <= bound
      modifies this, client, sink
      ensures NoDup(order) && forall name | name in order :: name in references
      ensures ok ==> Enumerates(order, references.Keys)
      ensures var (next, res) := ResolveAll(w, cfg, old(Current()), references, order, old(sink.entries));
        Current() == next && ok == res.Some? && (ok ==> sink.entries == res.value)
      decreases bound, 1
    {
      order := [];
      var remaining := references.Keys;
      while remaining != {}
        invariant remaining <= references.Keys
        invariant Enumerates(order, references.Keys - remaining)
        invariant forall name | name in order :: name in references && name !in remaining
        invariant ResolveAll(w, cfg, old(Current()), references, order, old(sink.entries))
               == (Current(), Some(sink.entries))
        decreases remaining
      {
        var name :| name in remaining;
        var value := references[name];
        ResolveAllLast(w, cfg, old(Current()), references, order, name, old(sink.entries));
        EnumeratesOneMore(order, references.Keys - remaining, name);
        ghost var mid, before := Current(), sink.entries;
        if HasInline(value) {
          ok := InjectInline(name, value, sink, bound);
        } else {
          ok := InjectPlain(name, value, sink);
        }
        assert Took(ok, Resolve(w, cfg, mid, name, value).1, name, before, sink.entries);
        order := order + [name];
        if !ok { return; }
        remaining := remaining - {name};
        assert references.Keys - remaining == (references.Keys - (remaining + {name})) + {name};
      }
      ok := true;
    }

    method GetDataFromVault(data: map<string, string>, ghost bound: nat) returns (vaultData: map<string, string>,
                            ok: bool, ghost order: seq<string>)
      requires forall name | name in data :: |data[name]| <= bound
      modifies this, client
      ensures NoDup(order) && forall name | name in order :: name in data
      ensures ok ==> Enumerates(order, data.Keys)
      ensures var (next, res) := ResolveAll(w, cfg, old(Current()), data, order, map[]);
        Current() == next && ok == res.Some? && (ok ==> vaultData == res.value)
      decreases bound, 2
    {
      var sink := new SecretSet();
      ok, order := InjectSecretsFromVault(data, sink, bound);
      vaultData := sink.entries;
    }

    // One path: every key of it, in any order.
    method InjectData(data: Data, sink: SecretSet) returns (ok: bool)
      modifies sink
      ensures ok <==> forall key | key in data :: w.toText(data[key]).Some?
      ensures ok ==> sink.entries == old(sink.entries) + TextMap(w, data)
    {
      var remaining := data.Keys;
      while remaining != {}
        invariant remaining <= data.Keys
        invariant forall key | key in data && key !in remaining :: w.toText(data[key]).Some?
        invariant sink.entries == old(sink.entries)
          + map key | key in data && key !in remaining && w.toText(data[key]).Some? :: w.toText(data[key]).value
        decreases remaining
      {
        var key :| key in remaining;
        var text := w.toText(data[key]);
        if text.None? { return false; }
        sink.Inject(key, text.value);
        remaining := remaining - {key};
      }
      ok := true;
    }

    method InjectSecretsFromVaultPath(paths: string, sink: SecretSet) returns (ok: bool)
      modifies this, client, sink
      ensures var (next, res) := ResolvePaths(w, cfg, old(Current()), Split(paths, ','), old(sink.entries));
        Current() == next && ok == res.Some? && (ok ==> sink.entries == res.value)
    {
      var entries := Split(paths, ',');
      var i := 0;
      while i < |entries|
        invariant 0 <= i <= |entries|
        invariant ResolvePaths(w, cfg, Current(), entries[i..], sink.entries)
               == ResolvePaths(w, cfg, old(Current()), entries, old(sink.entries))
      {
        var split := SplitN(entries[i], '#', 2);
        var version := "-1";
        if |split| == 2 { version := split[1]; }
        assert entries[i..][1..] == entries[i + 1..];
        var fetched := ReadPath(split[0], version, false);
        match fetched {
          case Fault => return false;
          case NoData =>
            if !cfg.ignoreMissing { return false; }
          case Got(data) =>
            var fine := InjectData(data, sink);
            if !fine { return false; }
        }
        i := i + 1;
      }
      ok := true;
    }
  }

  lemma EnumeratesOneMore(order: seq<string>, keys: set<string>, name: string)
    requires Enumerates(order, keys) && name !in keys
    ensures Enumerates(order + [name], keys + {name})
  {
    assert forall n | n in order :: n in set m | m in order;
    assert (set n | n in order + [name]) == (set n | n in order) + {name};
  }

  lemma OnlyName(order: seq<string>, name: string)
    requires NoDup(order) && forall n | n in order :: n == name
    ensures order == [] || order == [name]
  {
    assert |order| < 2 || order[0] != order[1];
    forall k | 0 <= k < |order| ensures order[k] == name { assert order[k] in order; }
  }

  // Resolving one reference through a map of its own.
  lemma SingleReference(w: World, cfg: Config, st: State, name: string, value: string)
    ensures forall order | NoDup(order) && forall n | n in order :: n in map[name := value] ::
      order == [] || order == [name]
    ensures Enumerates([name], {name}) && !Enumerates([], {name})
    ensures var (next, outcome) := Resolve(w, cfg, st, name, value);
      ResolveAll(w, cfg, st, map[name := value], [name], map[]) ==
        (next, match outcome
               case Error => None
               case Missing => Some(map[])
               case Resolved(text) => Some(map[name := text]))
  {
    var refs := map[name := value];
    forall order: seq<string> | NoDup(order) && forall n | n in order :: n in refs
      ensures order == [] || order == [name]
    {
      OnlyName(order, name);
    }
    assert name in [name];
    assert [name][1..] == [];
  }

  // The run grows by one name at the end.
  lemma {:induction false} ResolveAllLast(w: World, cfg: Config, st: State, refs: map<string, string>,
                                          order: seq<string>, name: string, out: map<string, string>)
    requires name in refs && forall n | n in order :: n in refs
    ensures forall n | n in order + [name] :: n in refs
    ensures ResolveAll(w, cfg, st, refs, order + [name], out) ==
      var (mid, res) := ResolveAll(w, cfg, st, refs, order, out);
      if res.None? then (mid, None)
      else
        var (next, outcome) := Resolve(w, cfg, mid, name, refs[name]);
        (next, match outcome
               case Error => None
               case Missing => res
               case Resolved(text) => Some(res.value[name := text]))
    decreases |order|
  {
    if order == [] {
      assert order + [name] == [name] && [name][1..] == [];
    } else {
      var (next, outcome) := Resolve(w, cfg, st, order[0], refs[order[0]]);
      assert (order + [name])[1..] == order[1..] + [name];
      if !outcome.Error? {
        ResolveAllLast(w, cfg, next, refs, order[1..], name,
          if outcome.Resolved? then out[order[0] := outcome.text] else out);
      }
    }
  }

  // A failed call leaves the map alone; any other injects the value there is.
  predicate Took(ok: bool, outcome: Outcome, name: string, before: map<string, string>, after: map<string, string>) {
    && ok == !outcome.Error?
    && after == if outcome.Resolved? then before[name := outcome.text] else before
  }
}
