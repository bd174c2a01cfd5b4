/** What references, written out, come to: which place is read or written, what is taken out of the
    reply, and which values are no references at all. */
module References {
  import opened Strings
  import opened Pattern
  import opened Substitution
  import opened Vault
  import opened Resolver
  import opened Runs

  // ---------------------------------------------------------------------------------------
  // From the text to the place.
  // ---------------------------------------------------------------------------------------

  function Reference(path: string, key: string): string {
    "secrets-store:" + (path + "#" + key)
  }

  function Versioned(path: string, key: string, version: string): string {
    "secrets-store:" + (path + "#" + key + "#" + version)
  }

  // A reference to this place: without a version the latest one, -1, is meant.
  predicate Names(value: string, path: string, key: string, version: string) {
    || (value == Reference(path, key) && version == "-1")
    || value == Versioned(path, key, version)
  }

  // An update of this path: without a payload an empty object is written.
  predicate NamesUpdate(value: string, path: string, key: string, payload: string) {
    || (value == ">>" + Reference(path, key) && payload == "{}")
    || value == ">>" + Versioned(path, key, payload)
  }

  lemma SplitNThree(path: string, key: string, last: string)
    requires '#' !in path && '#' !in key
    ensures SplitN(path + "#" + key + "#" + last, '#', 3) == [path, key, last]
  {
    var s, rest := path + "#" + key + "#" + last, key + "#" + last;
    assert s == path + "#" + rest;
    assert s[0..|path|] == path && s[|path| + 1..] == rest;
    IndexFromIs(s, '#', 0, |path|);
    assert s[..|path|] == path;
    SplitNRoundTrip(key, '#', last);
  }

  // What follows the prefix of a reference decides.
  lemma ParsesAfterPrefix(name: string, rest: string)
    ensures !HasPrefix("secrets-store:" + rest, ">>" + Marker)
    ensures HasPrefix("secrets-store:" + rest, Marker) && TrimPrefix("secrets-store:" + rest, Marker) == rest
    ensures HasPrefix(">>" + ("secrets-store:" + rest), ">>" + Marker)
    ensures TrimPrefix(">>" + ("secrets-store:" + rest), ">>") == "secrets-store:" + rest
  {
    PrefixOfSum(Marker, rest);
    PrefixOfSum(">>", "secrets-store:" + rest);
    assert ">>" + ("secrets-store:" + rest) == (">>" + Marker) + rest;
    PrefixOfSum(">>" + Marker, rest);
    assert ("secrets-store:" + rest)[0] == 's';
    NotMarked("secrets-store:" + rest);
  }

  lemma ParsesRead(name: string, value: string, path: string, key: string, version: string)
    requires '#' !in path && '#' !in key && Names(value, path, key, version)
    ensures ParsePlain(name, value) == Lookup(path, key, version, false)
  {
    SplitNTwo(path, key);
    SplitNThree(path, key, version);
    ParsesAfterPrefix(name, path + "#" + key);
    ParsesAfterPrefix(name, path + "#" + key + "#" + version);
    HashInside(path, key, version);
  }

  lemma ParsesUpdate(name: string, value: string, path: string, key: string, payload: string)
    requires '#' !in path && '#' !in key && NamesUpdate(value, path, key, payload)
    ensures ParsePlain(name, value) == Lookup(path, key, payload, true)
  {
    SplitNTwo(path, key);
    SplitNThree(path, key, payload);
    ParsesAfterPrefix(name, path + "#" + key);
    ParsesAfterPrefix(name, path + "#" + key + "#" + payload);
    HashInside(path, key, payload);
  }

  // So neither is the token of a login.
  lemma HashInside(path: string, key: string, last: string)
    ensures path + "#" + key != "login" && path + "#" + key + "#" + last != "login"
  {
    assert (path + "#" + key)[|path|] == '#' && (path + "#" + key + "#" + last)[|path|] == '#';
    assert '#' !in "login";
  }

  /** A reference reads its path at its version, -1 where it names none, and comes to what the reply
      holds under its key. */
  lemma ReferenceMeaning(w: World, cfg: Config, rd: Reader, name: string, value: string, path: string, key: string,
                         version: string)
    requires '#' !in path && '#' !in key && Names(value, path, key, version) && !HasInline(value)
    ensures Direct(w, cfg, rd, name, value) == Conclude(w, cfg, key, Taken(w, cfg, path, rd(path, version)))
  {
    ParsesRead(name, value, path, key, version);
  }

  lemma UpdateResolves(w: World, cfg: Config, log: seq<Write>, path: string, key: string, payload: string)
    ensures var (next, outcome) := ResolvePlain(w, cfg, State(map[], log, []), Lookup(path, key, payload, true));
      match w.parseJson(payload)
      case None => next.log == log && outcome == Error
      case Some(data) =>
        && next.log == log + [Write(path, data)]
        && outcome == Conclude(w, cfg, key, Taken(w, cfg, path, w.write(log, Write(path, data))))
  {
    hide Taken, CacheKey;
  }

  /** An update writes its payload to its path, once, and comes to what the reply holds under its key;
      with a payload that does not parse it fails, and nothing is written. */
  lemma UpdateMeaning(w: World, cfg: Config, log: seq<Write>, name: string, value: string, path: string, key: string,
                      payload: string)
    requires '#' !in path && '#' !in key && NamesUpdate(value, path, key, payload) && !HasInline(value)
    ensures var (next, outcome) := Resolve(w, cfg, State(map[], log, []), name, value);
      match w.parseJson(payload)
      case None => next.log == log && outcome == Error
      case Some(data) =>
        && next.log == log + [Write(path, data)]
        && outcome == Conclude(w, cfg, key, Taken(w, cfg, path, w.write(log, Write(path, data))))
  {
    ParsesUpdate(name, value, path, key, payload);
    hide NamesUpdate, ParsePlain, Taken, Conclude, HasInline;
    UpdateResolves(w, cfg, log, path, key, payload);
  }

  /** Without a key a reference fails, but for the token of a login. */
  lemma KeylessMeaning(w: World, cfg: Config, rd: Reader, name: string, rest: string)
    requires '#' !in rest && !HasInline("secrets-store:" + rest)
    ensures Direct(w, cfg, rd, name, "secrets-store:" + rest) ==
      if name == "VAULT_TOKEN" && rest == "login" then Resolved(w.token) else Error
  {
    ParsesAfterPrefix(name, rest);
    SplitNHead(rest, '#', 3);
  }

  lemma LiteralExactly(name: string, value: string)
    ensures ParsePlain(name, value).Literal?
      <==> !OccursAt("secrets-store:", value, 0) && !OccursAt(">>secrets-store:", value, 0)
    ensures ParsePlain(name, value).Literal? ==> ParsePlain(name, value).text == value
  {
    assert ">>" + Marker == ">>secrets-store:";
    if HasPrefix(value, ">>" + Marker) {
      MarkedBegins(value);
      var bare := TrimPrefix(value, ">>");
      assert value[0..16] == ">>" + Marker;
      assert bare[0..14] == value[0..16][2..];
    }
  }

  /** Everything else is passed on as it is. */
  lemma LiteralMeaning(w: World, cfg: Config, rd: Reader, name: string, value: string)
    requires !OccursAt("secrets-store:", value, 0) && !OccursAt(">>secrets-store:", value, 0)
    requires FindAll(value) == []
    ensures Direct(w, cfg, rd, name, value) == Resolved(value)
  {
    LiteralExactly(name, value);
  }

  // ---------------------------------------------------------------------------------------
  // References inside other text.
  // ---------------------------------------------------------------------------------------

  // What may stand between the braces: a reference or an update on one line, without a brace.
  predicate Braceable(ref: string) {
    && (OccursAt("secrets-store:", ref, 0) || OccursAt(">>secrets-store:", ref, 0))
    && '}' !in ref && '\n' !in ref
  }

  function Braced(ref: string): string { "${" + ref + "}" }

  lemma {:induction false} CloseAtEnd(t: string, p: nat)
    requires p < |t| && t[|t| - 1] == '}' && forall k | p <= k < |t| - 1 :: t[k] != '}' && t[k] != '\n'
    ensures CloseEnd(t, p) == Some(|t|)
    decreases |t| - p
  {
    if p < |t| - 1 { CloseAtEnd(t, p + 1); }
  }

  lemma Shifted(target: string, s: string, before: string, after: string, k: nat)
    requires k + |target| <= |s|
    ensures OccursAt(target, before + s + after, |before| + k) <==> OccursAt(target, s, k)
  {
    assert (before + s + after)[|before| + k..|before| + k + |target|] == s[k..k + |target|];
  }

  lemma BracedOpens(ref: string)
    requires Braceable(ref)
    ensures OpenerEnd(Braced(ref), 0) == Some(if OccursAt("secrets-store:", ref, 0) then 16 else 18)
  {
    var t := Braced(ref);
    assert t[0..2] == "${";
    Shifted("secrets-store:", ref, "${", "}", 0);
    if OccursAt("secrets-store:", ref, 0) {
      assert t[2] == ref[0] == ref[0..14][0] == 's';
      assert t[2..3][0] == 's' && t[2..4][0] == 's';
      assert !OccursAt(">>", t, 2) && !OccursAt(">", t, 2) && OccursAt(Marker, t, 2);
    } else {
      Shifted(">>secrets-store:", ref, "${", "}", 0);
      OccursSplit(">>", "secrets-store:", t, 2);
      assert ">>" + Marker == ">>secrets-store:";
    }
  }

  lemma BracedIsRef(ref: string)
    requires Braceable(ref)
    ensures RefText(Braced(ref))
  {
    var t := Braced(ref);
    BracedOpens(ref);
    assert forall k | 2 <= k < |t| - 1 :: t[k] == ref[k - 2];
    assert |t| > 18 || OccursAt("secrets-store:", ref, 0);
    CloseAtEnd(t, OpenerEnd(t, 0).value);
  }

  // In text without `$` around it, it is the only match.
  lemma OnlyMatch(before: string, ref: string, after: string)
    requires Braceable(ref) && '$' !in before && '$' !in after && (after != "" ==> after[0] != '}')
    ensures var m := Span(|before|, |before| + |Braced(ref)|); var value := before + Braced(ref) + after;
      FindAll(value) == [m] && m.Text(value) == Braced(ref) && m.Body(value) == ref
  {
    BracedIsRef(ref);
    BodyOfBraced(before, ref, after);
    OnlyText(before, Braced(ref), after);
    hide Braced, RefText, Braceable;
  }

  lemma OnlyText(before: string, t: string, after: string)
    requires RefText(t) && '$' !in before && '$' !in after && (after != "" ==> after[0] != '}')
    ensures var m := Span(|before|, |before| + |t|);
      FindAll(before + t + after) == [m] && m.Text(before + t + after) == t
  {
    hide MatchEnd, RefText;
    PartsOccur(before, t, after);
    var value, end := before + t + after, |before| + |t|;
    assert value[0..|before|] == before && value[|before|..end] == t && value[end..|value|] == after;
    RefIsFound(value, |before|, t);
    assert t != "" by { TextNotEmpty(t); }
    OnlyFound(value, |before|, end);
  }

  lemma TextNotEmpty(t: string)
    requires RefText(t)
    ensures t != ""
  {
  }

  lemma OnlyFound(value: string, start: nat, end: nat)
    requires start < end <= |value| && MatchEnd(value, start) == Some(end)
    requires '$' !in value[0..start] && '$' !in value[end..|value|]
    ensures FindAll(value) == [Span(start, end)]
  {
    hide MatchEnd;
    ScanSkips(value, 0, start);
    ScanSkips(value, end, |value|);
    assert ScanFrom(value, start) == [Span(start, end)] + ScanFrom(value, end);
  }

  lemma BodyOfBraced(before: string, ref: string, after: string)
    ensures var value := before + Braced(ref) + after;
      value[|before| + 2..|before| + |Braced(ref)| - 1] == ref
  {
  }

  /** A reference in other text is replaced by what it comes to, and nothing else is; an error stays
      one, and a missing secret leaves the reference as it stands. */
  lemma InlineReferenceMeaning(w: World, cfg: Config, rd: Reader, name: string, before: string, ref: string,
                               after: string)
    requires Braceable(ref) && '$' !in before && '$' !in after && (after != "" ==> after[0] != '}')
    ensures var value := before + Braced(ref) + after;
      Direct(w, cfg, rd, name, value) ==
        match Direct(w, cfg, rd, name, ref)
        case Error => Error
        case Missing => Resolved(value)
        case Resolved(text) => Resolved(before + text + after)
  {
    var t, value := Braced(ref), before + Braced(ref) + after;
    var m := Span(|before|, |before| + |t|);
    OnlyMatch(before, ref, after);
    OwnOfSpan(w, cfg, rd, name, value, m);
    var own := Own(w, cfg, rd, name, value);
    assert own(t) == Direct(w, cfg, rd, name, ref);
    assert Texts(value, [m]) == [t];
    if own(t).Resolved? { ReplacedOnce(before, ref, after, own(t).text); }
    hide Braced, ReplaceAll;
    SplicedOne(value, t, own);
  }

  lemma SplicedOne(value: string, t: string, own: string -> Outcome)
    requires t != ""
    ensures Spliced(value, [t], own) ==
      match own(t)
      case Error => Error
      case Missing => Resolved(value)
      case Resolved(text) => Resolved(ReplaceAll(value, t, text))
  {
    hide ReplaceAll;
    var val := Values(own);
    var next := match val(t) case None => value case Some(v) => ReplaceAll(value, t, v);
    assert [t][0] == t && [t][1..] == [];
    assert Splice(next, [], val) == next;
    assert Splice(value, [t], val) == next;
    assert forall u | u in [t] :: u == t;
    assert t in [t];
  }

  lemma ReplacedOnce(before: string, ref: string, after: string, text: string)
    requires '$' !in before && '$' !in after
    ensures ReplaceAll(before + Braced(ref) + after, Braced(ref), text) == before + text + after
  {
    var t := Braced(ref);
    assert t[0] == '$';
    assert before + t + after == before + (t + after);
    forall p | 0 <= p < |before| ensures !OccursAt(t, before + (t + after), p) {
      assert (before + (t + after))[p] == before[p];
    }
    ReplaceSkips(before, t + after, t, text);
    PrefixOfSum(t, after);
    assert (t + after)[|t|..] == after;
    forall p | 0 <= p < |after| ensures !OccursAt(t, after + "", p) {
      assert (after + "")[p] == after[p];
    }
    ReplaceSkips(after, "", t, text);
    assert after + "" == after && ReplaceAll("", t, text) == "";
    assert before + (text + after) == before + text + after;
  }

  // ---------------------------------------------------------------------------------------
  // From the reply to the text.
  // ---------------------------------------------------------------------------------------

  // The text of one value, if there is one.
  function TextAt(w: World, data: Data, key: string): Outcome {
    if key in data && w.toText(data[key]).Some? then Resolved(w.toText(data[key]).value) else Error
  }

  predicate RenewalFails(w: World, cfg: Config, path: string, secret: Secret) {
    cfg.daemon && secret.leaseDuration > 0 && !w.renew(path, secret)
  }

  predicate IsVersioned(fields: Data) {
    "data" in fields && "metadata" in fields && fields["metadata"].Object?
  }

  /** A secret with versions holds its values under `data`, and needs an object under `metadata`; a
      secret without `data` holds them itself. */
  lemma SecretMeaning(w: World, cfg: Config, path: string, fields: Data, lease: int)
    requires !RenewalFails(w, cfg, path, Secret(Some(fields), lease))
    ensures var taken := Taken(w, cfg, path, Found(Secret(Some(fields), lease)));
      && ("data" !in fields ==> taken == Got(fields))
      && (IsVersioned(fields) ==> taken == Got(w.toMap(fields["data"])))
      && ("data" in fields && !IsVersioned(fields) ==> taken == Fault)
  {
  }

  /** No secret, or one with a nil map, is missing, which is an error unless missing ones are ignored;
      a failed call or renewal always is one. */
  lemma NoSecretMeaning(w: World, cfg: Config, path: string, key: string, secret: Secret)
    ensures Conclude(w, cfg, key, Taken(w, cfg, path, Failed)) == Error
    ensures Conclude(w, cfg, key, Taken(w, cfg, path, Absent)) == if cfg.ignoreMissing then Missing else Error
    ensures RenewalFails(w, cfg, path, secret) ==> Conclude(w, cfg, key, Taken(w, cfg, path, Found(secret))) == Error
    ensures secret.data.None? && !RenewalFails(w, cfg, path, secret) ==>
      Conclude(w, cfg, key, Taken(w, cfg, path, Found(secret))) == if cfg.ignoreMissing then Missing else Error
  {
  }

  /** A key names a value, unless it holds both delimiters of a template, which is then rendered. */
  lemma KeyMeaning(w: World, key: string, data: Data)
    ensures '}' !in key || '$' !in key ==> Extract(w, key, data) == TextAt(w, data, key)
    ensures forall i, j | 0 <= i < |key| - 1 && 0 <= j < |key| && key[i] == '$' && key[i + 1] == '{' && key[j] == '}' ::
      Extract(w, key, data) == match w.render(key, data) case None => Error case Some(text) => Resolved(text)
  {
    if IsGoTemplate(key) {
      var i: nat :| i <= |key| && OccursAt("${", key, i);
      var j: nat :| j <= |key| && OccursAt("}", key, j);
      assert key[i..i + 2][0] == key[i] && key[j..j + 1][0] == key[j];
      assert '$' in key && '}' in key;
    }
    forall i, j | 0 <= i < |key| - 1 && 0 <= j < |key| && key[i] == '$' && key[i + 1] == '{' && key[j] == '}'
      ensures IsGoTemplate(key)
    {
      assert key[i..i + 2] == "${" && key[j..j + 1] == "}";
      assert OccursAt("${", key, i) && OccursAt("}", key, j);
    }
  }

  /** All in one: a reference to a plain key of a secret with versions comes to the text of that key
      in its `data`; to one of a secret without, to that in the secret itself. */
  lemma PlainKeyMeaning(w: World, cfg: Config, rd: Reader, name: string, value: string, path: string, key: string,
                        version: string, fields: Data, lease: int)
    requires '#' !in path && '#' !in key && ('}' !in key || '$' !in key)
    requires Names(value, path, key, version) && !HasInline(value)
    requires rd(path, version) == Found(Secret(Some(fields), lease))
    requires !RenewalFails(w, cfg, path, Secret(Some(fields), lease))
    ensures IsVersioned(fields) ==> Direct(w, cfg, rd, name, value) == TextAt(w, w.toMap(fields["data"]), key)
    ensures "data" !in fields ==> Direct(w, cfg, rd, name, value) == TextAt(w, fields, key)
    ensures "data" in fields && !IsVersioned(fields) ==> Direct(w, cfg, rd, name, value) == Error
  {
    ReferenceMeaning(w, cfg, rd, name, value, path, key, version);
    SecretMeaning(w, cfg, path, fields, lease);
    if "data" !in fields {
      KeyMeaning(w, key, fields);
    } else {
      KeyMeaning(w, key, w.toMap(fields["data"]));
    }
  }

  /** A lease is put under renewal exactly in daemon mode, if there is one and the renewal can be set
      up; otherwise nothing but the reply comes of a read. */
  lemma LeaseMeaning(w: World, cfg: Config, st: State, path: string, version: string)
    ensures var reply := w.read(st.log, path, version);
      var renewed := cfg.daemon && reply.Found? && reply.secret.leaseDuration > 0 && w.renew(path, reply.secret);
      ReadVaultPath(w, cfg, st, path, version, false).0 == st.(leases := st.leases + if renewed then [path] else [])
  {
    assert st.leases + [] == st.leases;
  }

  // ---------------------------------------------------------------------------------------
  // Delivered paths.
  // ---------------------------------------------------------------------------------------

  /** An entry is a path, read at its latest version, or a path and a version. */
  lemma EntryMeaning(path: string, version: string)
    requires '#' !in path
    ensures PlaceOf(path) == Place(path, "-1")
    ensures PlaceOf(path + "#" + version) == Place(path, version)
  {
    SplitNRoundTrip(path, '#', version);
    assert path + "#" + version == path + ['#'] + version;
    SplitNHead(path, '#', 2);
    var parts := SplitN(path, '#', 2);
    assert IndexFrom(path, '#', 0) == |path|;
    assert parts == [path];
  }

  /** It delivers the keys under `data` of a secret with versions, and those of a secret without
      `data`, each with its text. */
  lemma DeliveryMeaning(w: World, cfg: Config, rd: Reader, entry: string, fields: Data, lease: int, key: string)
    requires var p := PlaceOf(entry);
      && rd(p.path, p.argument) == Found(Secret(Some(fields), lease))
      && !RenewalFails(w, cfg, p.path, Secret(Some(fields), lease))
    ensures IsVersioned(fields) ==>
      var data := w.toMap(fields["data"]);
      LastDelivery(w, cfg, rd, [entry], key) == if key in data then w.toText(data[key]) else None
    ensures "data" !in fields ==>
      LastDelivery(w, cfg, rd, [entry], key) == if key in fields then w.toText(fields[key]) else None
    ensures "data" in fields && !IsVersioned(fields) ==> !PathsFine(w, cfg, rd, [entry])
  {
    SecretMeaning(w, cfg, PlaceOf(entry).path, fields, lease);
    assert [entry][..0] == [] && [entry][0] == entry;
  }

  // ---------------------------------------------------------------------------------------
  // The guard of the watcher.
  // ---------------------------------------------------------------------------------------

  // The body of a match is marked exactly if the mark follows the opening brace.
  lemma BodyMarked(value: string, m: Span)
    requires m.In(value) && OccursAt("${", value, m.start)
    ensures HasPrefix(m.Body(value), ">>") ==> OccursAt("${>>", value, m.start)
    ensures OccursAt("${>>", value, m.start) && m.start + 5 <= m.end ==> HasPrefix(m.Body(value), ">>")
  {
    OccursSplit("${", ">>", value, m.start);
    assert "${" + ">>" == "${>>";
    var body := m.Body(value);
    assert |body| >= 2 ==> body[0..2] == value[m.start + 2..m.start + 4];
  }

  lemma MatchMarked(value: string, m: Span)
    requires m in FindAll(value)
    ensures HasPrefix(m.Body(value), ">>") <==> OccursAt("${>>", value, m.start)
  {
    ScanFacts(value, 0);
    assert MatchEnd(value, m.start) == Some(m.end);
    hide ScanFrom, FindAll, CloseEnd;
    BodyMarked(value, m);
  }

  /** The guard takes a value for an update exactly if it begins with one, or one of its matches
      does. */
  lemma GuardMeaning(value: string)
    ensures IsUpdateReference(value) <==>
      || OccursAt(">>secrets-store:", value, 0)
      || exists m :: m in FindAll(value) && OccursAt("${>>", value, m.start)
  {
    assert ">>" + Marker == ">>secrets-store:";
    hide FindAll;
    forall m | m in FindAll(value)
      ensures HasPrefix(m.Body(value), ">>") <==> OccursAt("${>>", value, m.start)
    {
      MatchMarked(value, m);
    }
  }

  /** So a value without `>>` is watched. */
  lemma WithoutMarkWatched(value: string)
    requires !Contains(value, ">>")
    ensures !IsUpdateReference(value)
  {
    GuardMeaning(value);
    hide FindAll, IsUpdateReference;
    NoMark(value, 0);
    forall m | m in FindAll(value) ensures !OccursAt("${>>", value, m.start) { NoMark(value, m.start); }
  }

  lemma NoMark(value: string, i: nat)
    requires !Contains(value, ">>")
    ensures !OccursAt(">>secrets-store:", value, i) && !OccursAt("${>>", value, i)
  {
    OccursSplit(">>", "secrets-store:", value, i);
    OccursSplit("${", ">>", value, i);
    assert ">>" + "secrets-store:" == ">>secrets-store:" && "${" + ">>" == "${>>";
    assert i <= |value| ==> !OccursAt(">>", value, i);
    assert i + 2 <= |value| ==> !OccursAt(">>", value, i + 2);
  }
}
