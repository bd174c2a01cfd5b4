/** From a SecretsStoreImport to the files mounted into a pod: the controller that renders it into a
    SecretProviderClass, and the CSI driver that writes the payloads of the provider. */
module SecretImport {
  import opened Strings

  datatype Key = Key(namespace: string, name: string)

  datatype File = File(name: string, decodeBase64: bool, path: string, key: string)

  datatype Spec = Spec(
    kind: string, role: string, authPath: string, vaultNamespace: string, address: string,
    caCert: string, audience: string, skipTls: bool, files: seq<File>)

  datatype Import = Import(uid: string, spec: Spec)

  datatype VaultObject = VaultObject(objectName: string, secretPath: string, secretKey: string)

  datatype ObjectData = ObjectData(key: string, objectName: string, decodeBase64: bool)

  datatype SecretObject = SecretObject(secretName: string, secretType: string, data: seq<ObjectData>)

  // A SecretProviderClass apart from its resource version.
  datatype Class = Class(
    key: Key, managedBy: string, ownerName: string, ownerUid: string,
    provider: string, parameters: map<string, string>, secretObjects: seq<SecretObject>)

  /** The encoders, as functions that may fail. */
  datatype Codecs = Codecs(
    toYaml: seq<VaultObject> -> Option<string>,
    fromYaml: string -> Option<seq<VaultObject>>,
    objectsToJson: seq<SecretObject> -> Option<string>,
    objectsFromJson: string -> Option<seq<SecretObject>>,
    mapToJson: map<string, string> -> Option<string>,
    mapFromJson: string -> Option<map<string, string>>,
    decodeBase64: string -> Option<string>)

  ghost predicate Faithful(c: Codecs) {
    && (forall objects, text :: c.toYaml(objects) == Some(text) ==> c.fromYaml(text) == Some(objects))
    && (forall objects, text :: c.objectsToJson(objects) == Some(text) ==>
          text != "" && c.objectsFromJson(text) == Some(objects))
    && (forall m, text :: c.mapToJson(m) == Some(text) ==> c.mapFromJson(text) == Some(m))
  }

  // ----- rendering -----

  function VaultObjectOf(f: File): VaultObject { VaultObject(f.name, f.path, f.key) }

  function DataOf(f: File): ObjectData { ObjectData(f.key, f.name, f.decodeBase64) }

  function VaultObjects(files: seq<File>): seq<VaultObject> {
    seq(|files|, i requires 0 <= i < |files| => VaultObjectOf(files[i]))
  }

  function DataEntries(files: seq<File>): seq<ObjectData> {
    seq(|files|, i requires 0 <= i < |files| => DataOf(files[i]))
  }

  // An empty field is not rendered.
  function Entry(key: string, value: string): map<string, string> {
    if value != "" then map[key := value] else map[]
  }

  // The parameters that the provider understands.
  datatype Names = Names(
    role: string, authPath: string, vaultNamespace: string, address: string,
    caCert: string, audience: string, skipTls: string, objects: string)

  function ParameterNames(): Names {
    Names("roleName", "vaultAuthMountPath", "vaultNamespace", "vaultAddress",
          "vaultCACert", "audience", "vaultSkipTLSVerify", "objects")
  }

  const SECRET_OBJECTS := "secretObjects"

  function Settings(k: Names, s: Spec): map<string, string> {
    map[k.role := s.role] + Entry(k.authPath, s.authPath) + Entry(k.vaultNamespace, s.vaultNamespace)
    + Entry(k.address, s.address) + Entry(k.caCert, s.caCert) + Entry(k.audience, s.audience)
    + map[k.skipTls := if s.skipTls then "true" else "false"]
  }

  function Rendered(c: Codecs, key: Key, i: Import): Option<Class> {
    match c.toYaml(VaultObjects(i.spec.files))
    case None => None
    case Some(yaml) =>
      Some(Class(key, "secrets-store-import", key.name, i.uid, "vault",
                 Settings(ParameterNames(), i.spec)[ParameterNames().objects := yaml],
                 [SecretObject(key.name, "Opaque", DataEntries(i.spec.files))]))
  }

  method SetIf(parameters: map<string, string>, key: string, value: string) returns (result: map<string, string>)
    ensures result == parameters + Entry(key, value)
  {
    result := parameters;
    if value != "" { result := result[key := value]; }
  }

  method CreateParameters(k: Names, s: Spec) returns (parameters: map<string, string>)
    ensures parameters == Settings(k, s)
  {
    hide Entry;
    parameters := map[k.role := s.role];
    parameters := SetIf(parameters, k.authPath, s.authPath);
    parameters := SetIf(parameters, k.vaultNamespace, s.vaultNamespace);
    parameters := SetIf(parameters, k.address, s.address);
    parameters := SetIf(parameters, k.caCert, s.caCert);
    parameters := SetIf(parameters, k.audience, s.audience);
    var skip := "false";
    if s.skipTls { skip := "true"; }
    UpdateIsSum(parameters, k.skipTls, skip);
    parameters := parameters[k.skipTls := skip];
  }

  lemma UpdateIsSum(p: map<string, string>, key: string, value: string)
    ensures p[key := value] == p + map[key := value]
  {
  }

  method CreateSecretProviderClass(c: Codecs, key: Key, ssi: Import) returns (result: Option<Class>)
    ensures result == Rendered(c, key, ssi)
  {
    hide Settings, ParameterNames;
    var parameters := CreateParameters(ParameterNames(), ssi.spec);
    var vaultObjects, data := [], [];
    var i := 0;
    while i < |ssi.spec.files|
      invariant 0 <= i <= |ssi.spec.files|
      invariant vaultObjects == VaultObjects(ssi.spec.files[..i]) && data == DataEntries(ssi.spec.files[..i])
    {
      var file := ssi.spec.files[i];
      vaultObjects := vaultObjects + [VaultObject(file.name, file.path, file.key)];
      data := data + [ObjectData(file.key, file.name, file.decodeBase64)];
      i := i + 1;
    }
    assert ssi.spec.files[..i] == ssi.spec.files;
    match c.toYaml(vaultObjects) {
      case None => return None;
      case Some(yaml) =>
        parameters := parameters[ParameterNames().objects := yaml];
        result := Some(Class(key, "secrets-store-import", key.name, ssi.uid, "vault", parameters,
                             [SecretObject(key.name, "Opaque", data)]));
    }
  }

  function Lookup(parameters: map<string, string>, key: string): string {
    if key in parameters then parameters[key] else ""
  }

  // Reads the import back from what was rendered.
  function Recovered(c: Codecs, spc: Class): Option<Import> {
    var k := ParameterNames();
    var p := spc.parameters;
    match c.fromYaml(Lookup(p, k.objects))
    case None => None
    case Some(objects) =>
      if |spc.secretObjects| != 1 || |spc.secretObjects[0].data| != |objects| then None
      else
        Some(Import(spc.ownerUid,
          Spec("CSI", Lookup(p, k.role), Lookup(p, k.authPath), Lookup(p, k.vaultNamespace), Lookup(p, k.address),
               Lookup(p, k.caCert), Lookup(p, k.audience), Lookup(p, k.skipTls) == "true",
               FilesOf(objects, spc.secretObjects[0].data))))
  }

  function FilesOf(objects: seq<VaultObject>, data: seq<ObjectData>): seq<File>
    requires |objects| == |data|
  {
    seq(|objects|, i requires 0 <= i < |objects| =>
      File(objects[i].objectName, data[i].decodeBase64, objects[i].secretPath, objects[i].secretKey))
  }

  predicate AllDiffer(k: Names) {
    && k.role !in {k.authPath, k.vaultNamespace, k.address, k.caCert, k.audience, k.skipTls, k.objects}
    && k.authPath !in {k.vaultNamespace, k.address, k.caCert, k.audience, k.skipTls, k.objects}
    && k.vaultNamespace !in {k.address, k.caCert, k.audience, k.skipTls, k.objects}
    && k.address !in {k.caCert, k.audience, k.skipTls, k.objects}
    && k.caCert !in {k.audience, k.skipTls, k.objects}
    && k.audience !in {k.skipTls, k.objects}
    && k.skipTls != k.objects
  }

  lemma NamesDiffer()
    ensures AllDiffer(ParameterNames())
  {
    var k := ParameterNames();
    assert k.role[0] != k.audience[0] && k.authPath[5] != k.skipTls[5];
    assert |k.role| == 8 && |k.authPath| == 18 && |k.vaultNamespace| == 14 && |k.address| == 12 && |k.caCert| == 11
      && |k.audience| == 8 && |k.skipTls| == 18 && |k.objects| == 7;
  }

  function Chosen(key: string, value: string, x: string, otherwise: string): string {
    if x == key && value != "" then value else otherwise
  }

  lemma EntryRead(p: map<string, string>, key: string, value: string, x: string)
    ensures Lookup(p + Entry(key, value), x) == Chosen(key, value, x, Lookup(p, x))
  {
  }

  lemma SettingAt(k: Names, s: Spec, yaml: string, x: string)
    ensures Lookup(Settings(k, s)[k.objects := yaml], x) ==
      if x == k.objects then yaml
      else if x == k.skipTls then (if s.skipTls then "true" else "false")
      else Chosen(k.audience, s.audience, x, Chosen(k.caCert, s.caCert, x, Chosen(k.address, s.address, x,
           Chosen(k.vaultNamespace, s.vaultNamespace, x, Chosen(k.authPath, s.authPath, x,
           if x == k.role then s.role else "")))))
  {
    var p := map[k.role := s.role];
    EntryRead(p, k.authPath, s.authPath, x);
    p := p + Entry(k.authPath, s.authPath);
    EntryRead(p, k.vaultNamespace, s.vaultNamespace, x);
    p := p + Entry(k.vaultNamespace, s.vaultNamespace);
    EntryRead(p, k.address, s.address, x);
    p := p + Entry(k.address, s.address);
    EntryRead(p, k.caCert, s.caCert, x);
    p := p + Entry(k.caCert, s.caCert);
    EntryRead(p, k.audience, s.audience, x);
  }

  // An empty setting and a missing one are read alike.
  lemma SettingsRead(k: Names, s: Spec, yaml: string)
    requires AllDiffer(k)
    ensures var p := Settings(k, s)[k.objects := yaml];
      && Lookup(p, k.role) == s.role && Lookup(p, k.authPath) == s.authPath
      && Lookup(p, k.vaultNamespace) == s.vaultNamespace
      && Lookup(p, k.address) == s.address && Lookup(p, k.caCert) == s.caCert && Lookup(p, k.audience) == s.audience
      && (Lookup(p, k.skipTls) == "true" <==> s.skipTls) && Lookup(p, k.objects) == yaml
  {
    hide Settings, Lookup;
    SettingAt(k, s, yaml, k.role);
    SettingAt(k, s, yaml, k.authPath);
    SettingAt(k, s, yaml, k.vaultNamespace);
    SettingAt(k, s, yaml, k.address);
    SettingAt(k, s, yaml, k.caCert);
    SettingAt(k, s, yaml, k.audience);
    SettingAt(k, s, yaml, k.skipTls);
    SettingAt(k, s, yaml, k.objects);
  }

  // The key is there exactly if the setting is on, and has its value.
  predicate Has(p: map<string, string>, key: string, on: bool, value: string) {
    (key in p <==> on) && (on ==> p[key] == value)
  }

  lemma EntryHas(p: map<string, string>, key: string, value: string, x: string)
    ensures x in p + Entry(key, value) <==> x in p || (x == key && value != "")
  {
  }

  lemma SettingIn(k: Names, s: Spec, yaml: string, x: string)
    ensures x in Settings(k, s)[k.objects := yaml] <==>
      || x in {k.objects, k.skipTls, k.role}
      || (x == k.audience && s.audience != "") || (x == k.caCert && s.caCert != "")
      || (x == k.address && s.address != "") || (x == k.vaultNamespace && s.vaultNamespace != "")
      || (x == k.authPath && s.authPath != "")
  {
    var p := map[k.role := s.role];
    EntryHas(p, k.authPath, s.authPath, x);
    p := p + Entry(k.authPath, s.authPath);
    EntryHas(p, k.vaultNamespace, s.vaultNamespace, x);
    p := p + Entry(k.vaultNamespace, s.vaultNamespace);
    EntryHas(p, k.address, s.address, x);
    p := p + Entry(k.address, s.address);
    EntryHas(p, k.caCert, s.caCert, x);
    p := p + Entry(k.caCert, s.caCert);
    EntryHas(p, k.audience, s.audience, x);
  }

  predicate Describes(k: Names, p: map<string, string>, s: Spec, yaml: string) {
    && Has(p, k.role, true, s.role)
    && Has(p, k.authPath, s.authPath != "", s.authPath)
    && Has(p, k.vaultNamespace, s.vaultNamespace != "", s.vaultNamespace)
    && Has(p, k.address, s.address != "", s.address)
    && Has(p, k.caCert, s.caCert != "", s.caCert)
    && Has(p, k.audience, s.audience != "", s.audience)
    && Has(p, k.skipTls, true, if s.skipTls then "true" else "false")
    && Has(p, k.objects, true, yaml)
    && p.Keys <= {k.role, k.authPath, k.vaultNamespace, k.address, k.caCert, k.audience, k.skipTls, k.objects}
  }

  lemma SettingHas(k: Names, s: Spec, yaml: string, x: string, on: bool, value: string)
    requires AllDiffer(k)
    requires || (x == k.role && on && value == s.role)
             || (x == k.authPath && on == (s.authPath != "") && value == s.authPath)
             || (x == k.vaultNamespace && on == (s.vaultNamespace != "") && value == s.vaultNamespace)
             || (x == k.address && on == (s.address != "") && value == s.address)
             || (x == k.caCert && on == (s.caCert != "") && value == s.caCert)
             || (x == k.audience && on == (s.audience != "") && value == s.audience)
             || (x == k.skipTls && on && value == if s.skipTls then "true" else "false")
             || (x == k.objects && on && value == yaml)
    ensures Has(Settings(k, s)[k.objects := yaml], x, on, value)
  {
    SettingAt(k, s, yaml, x);
    SettingIn(k, s, yaml, x);
    hide Settings;
  }

  lemma SettingsDescribed(k: Names, s: Spec, yaml: string)
    requires AllDiffer(k)
    ensures Describes(k, Settings(k, s)[k.objects := yaml], s, yaml)
  {
    hide Settings, Has, AllDiffer;
    var p := Settings(k, s)[k.objects := yaml];
    SettingHas(k, s, yaml, k.role, true, s.role);
    SettingHas(k, s, yaml, k.authPath, s.authPath != "", s.authPath);
    SettingHas(k, s, yaml, k.vaultNamespace, s.vaultNamespace != "", s.vaultNamespace);
    SettingHas(k, s, yaml, k.address, s.address != "", s.address);
    SettingHas(k, s, yaml, k.caCert, s.caCert != "", s.caCert);
    SettingHas(k, s, yaml, k.audience, s.audience != "", s.audience);
    SettingHas(k, s, yaml, k.skipTls, true, if s.skipTls then "true" else "false");
    SettingHas(k, s, yaml, k.objects, true, yaml);
    forall x | x in p.Keys
      ensures x in {k.role, k.authPath, k.vaultNamespace, k.address, k.caCert, k.audience, k.skipTls, k.objects}
    {
      SettingIn(k, s, yaml, x);
    }
  }

  /** What the provider is told, parameter by parameter: the role, the objects and whether to skip the
      check of certificates always, the rest where given, and nothing else. */
  lemma ParametersExactly(c: Codecs, key: Key, i: Import)
    requires Rendered(c, key, i).Some?
    ensures var p, s := Rendered(c, key, i).value.parameters, i.spec;
      && Has(p, "roleName", true, s.role)
      && Has(p, "vaultAuthMountPath", s.authPath != "", s.authPath)
      && Has(p, "vaultNamespace", s.vaultNamespace != "", s.vaultNamespace)
      && Has(p, "vaultAddress", s.address != "", s.address)
      && Has(p, "vaultCACert", s.caCert != "", s.caCert)
      && Has(p, "audience", s.audience != "", s.audience)
      && Has(p, "vaultSkipTLSVerify", true, if s.skipTls then "true" else "false")
      && "objects" in p && c.toYaml(VaultObjects(s.files)) == Some(p["objects"])
      && p.Keys <= {"roleName", "vaultAuthMountPath", "vaultNamespace", "vaultAddress", "vaultCACert", "audience",
                    "vaultSkipTLSVerify", "objects"}
  {
    NamesDiffer();
    SettingsDescribed(ParameterNames(), i.spec, c.toYaml(VaultObjects(i.spec.files)).value);
    hide Settings;
    assert Has(Rendered(c, key, i).value.parameters, "objects", true, c.toYaml(VaultObjects(i.spec.files)).value);
  }

  /** And whose secret it makes: one object of the import's name, owned by the import, with one entry
      for each file, which the provider finds under the file's path and key. */
  lemma RenderedMeaning(c: Codecs, key: Key, i: Import)
    requires Faithful(c) && Rendered(c, key, i).Some?
    ensures var spc := Rendered(c, key, i).value;
      && spc.key == key && spc.provider == "vault" && spc.managedBy == "secrets-store-import"
      && spc.ownerName == key.name && spc.ownerUid == i.uid
      && |spc.secretObjects| == 1
      && spc.secretObjects[0].secretName == key.name && spc.secretObjects[0].secretType == "Opaque"
      && |spc.secretObjects[0].data| == |i.spec.files|
    ensures var spc, files := Rendered(c, key, i).value, i.spec.files;
      && "objects" in spc.parameters
      && c.fromYaml(spc.parameters["objects"]) == Some(VaultObjects(files)) && |VaultObjects(files)| == |files|
      && forall k | 0 <= k < |files| ::
           var data, entry := spc.secretObjects[0].data[k], VaultObjects(files)[k];
           && data.key == files[k].key && data.objectName == files[k].name
           && data.decodeBase64 == files[k].decodeBase64
           && entry.objectName == files[k].name && entry.secretPath == files[k].path
           && entry.secretKey == files[k].key
  {
    ParametersExactly(c, key, i);
    hide Settings, ParameterNames, Has;
  }

  lemma FilesBack(files: seq<File>)
    ensures FilesOf(VaultObjects(files), DataEntries(files)) == files
  {
  }

  /** Round trip: everything in an import but its kind, of which only one is supported, can be read
      back from its rendering. */
  lemma RenderingRoundTrip(c: Codecs, key: Key, i: Import)
    requires Faithful(c) && Rendered(c, key, i).Some?
    ensures Recovered(c, Rendered(c, key, i).value) == Some(i.(spec := i.spec.(kind := "CSI")))
    ensures Rendered(c, key, i).value.key == key
  {
    NamesDiffer();
    hide Settings, ParameterNames, Lookup, FilesOf;
    var yaml := c.toYaml(VaultObjects(i.spec.files)).value;
    SettingsRead(ParameterNames(), i.spec, yaml);
    assert c.fromYaml(yaml) == Some(VaultObjects(i.spec.files));
    FilesBack(i.spec.files);
  }

  /** Two imports are rendered alike exactly when they are alike, the kind apart. */
  lemma RenderingDeterminesSpec(c: Codecs, key: Key, i: Import, key': Key, i': Import)
    requires Faithful(c) && Rendered(c, key, i).Some? && Rendered(c, key', i').Some?
    ensures Rendered(c, key, i) == Rendered(c, key', i')
      <==> key == key' && i.uid == i'.uid && i.spec == i'.spec.(kind := i.spec.kind)
  {
    RenderingRoundTrip(c, key, i);
    RenderingRoundTrip(c, key', i');
    if key == key' && i.uid == i'.uid && i.spec == i'.spec.(kind := i.spec.kind) {
      assert i.spec.files == i'.spec.files;
    }
  }

  // ----- the API server and its other clients -----

  datatype Stored = Stored(spc: Class, version: nat)

  /** Every write of an object gets a version of its own. */
  datatype Server = Server(imports: map<Key, Import>, classes: map<Key, Stored>, next: nat)

  predicate VersionsUsed(s: Server) {
    forall k | k in s.classes :: s.classes[k].version < s.next
  }

  // What others may do between two calls of a reconciliation.
  datatype Foreign =
    | PutImport(key: Key, i: Import)
    | DeleteImport(key: Key)
    | PutClass(key: Key, spc: Class)
    | DeleteClass(key: Key)

  function Put(s: Server, key: Key, spc: Class): Server {
    s.(classes := s.classes[key := Stored(spc, s.next)], next := s.next + 1)
  }

  function Interfered(s: Server, op: Foreign): Server {
    match op
    case PutImport(key, i) => s.(imports := s.imports[key := i])
    case DeleteImport(key) => s.(imports := s.imports - {key})
    case PutClass(key, spc) => Put(s, key, spc)
    case DeleteClass(key) => s.(classes := s.classes - {key})
  }

  function AfterForeign(s: Server, ops: seq<Foreign>): Server
    decreases |ops|
  {
    if ops == [] then s else AfterForeign(Interfered(s, ops[0]), ops[1..])
  }

  /** What happens around the three calls of a reconciliation: the others' actions before each, and
      calls that fail.  A write that fails may have been carried out. */
  datatype Weather = Weather(first: seq<Foreign>, second: seq<Foreign>, third: seq<Foreign>, readFails: bool,
                             lookFails: bool, writeFails: bool, writeDone: bool)

  const CALM := Weather([], [], [], false, false, false, false)

  datatype Outcome = Error | Nothing | Created | Updated

  class ApiServer {
    var imports: map<Key, Import>
    var classes: map<Key, Stored>
    var next: nat

    ghost function State(): Server
      reads this
    {
      Server(imports, classes, next)
    }

    constructor ()
      ensures State() == Server(map[], map[], 0)
    {
      imports, classes, next := map[], map[], 0;
    }

    method Interfere(ops: seq<Foreign>)
      modifies this
      ensures State() == AfterForeign(old(State()), ops)
    {
      var i := 0;
      while i < |ops|
        invariant 0 <= i <= |ops|
        invariant AfterForeign(old(State()), ops) == AfterForeign(State(), ops[i..])
      {
        match ops[i] {
          case PutImport(key, ssi) => imports := imports[key := ssi];
          case DeleteImport(key) => imports := imports - {key};
          case PutClass(key, spc) =>
            classes := classes[key := Stored(spc, next)];
            next := next + 1;
          case DeleteClass(key) => classes := classes - {key};
        }
        i := i + 1;
      }
    }

    // Creation fails if the object exists.
    method Create(spc: Class) returns (ok: bool)
      modifies this
      ensures ok <==> spc.key !in old(classes)
      ensures State() == if ok then Put(old(State()), spc.key, spc) else old(State())
    {
      if spc.key in classes { return false; }
      classes := classes[spc.key := Stored(spc, next)];
      next := next + 1;
      ok := true;
    }

    // An update fails unless it names the version that is stored.
    method Update(spc: Class, version: nat) returns (ok: bool)
      modifies this
      ensures ok <==> spc.key in old(classes) && old(classes)[spc.key].version == version
      ensures State() == if ok then Put(old(State()), spc.key, spc) else old(State())
    {
      if spc.key !in classes || classes[spc.key].version != version { return false; }
      classes := classes[spc.key := Stored(spc, next)];
      next := next + 1;
      ok := true;
    }
  }

  // What the last call does, given the version that was fetched, if there was an object.
  function Written(s: Server, fetched: Option<nat>, spc: Class, weather: Weather): (Server, Outcome) {
    var allowed := if fetched.None? then spc.key !in s.classes
                   else spc.key in s.classes && s.classes[spc.key].version == fetched.value;
    if weather.writeFails then (if allowed && weather.writeDone then Put(s, spc.key, spc) else s, Error)
    else if !allowed then (s, Error)
    else (Put(s, spc.key, spc), if fetched.None? then Created else Updated)
  }

  function VersionIn(s: Server, key: Key): Option<nat> {
    if key in s.classes then Some(s.classes[key].version) else None
  }

  /** One reconciliation: read the import, render it, look for its class, write. */
  function Reconciled(c: Codecs, s: Server, key: Key, weather: Weather): (Server, Outcome) {
    var s1 := AfterForeign(s, weather.first);
    if weather.readFails then (s1, Error)
    else if key !in s1.imports then (s1, Nothing)
    else
      match Rendered(c, key, s1.imports[key])
      case None => (s1, Error)
      case Some(spc) =>
        var s2 := AfterForeign(s1, weather.second);
        if weather.lookFails then (s2, Error)
        else Written(AfterForeign(s2, weather.third), VersionIn(s2, key), spc, weather)
  }

  method Reconcile(c: Codecs, server: ApiServer, key: Key, weather: Weather) returns (outcome: Outcome)
    modifies server
    ensures (server.State(), outcome) == Reconciled(c, old(server.State()), key, weather)
  {
    server.Interfere(weather.first);
    if weather.readFails { return Error; }
    if key !in server.imports { return Nothing; }
    var rendered := CreateSecretProviderClass(c, key, server.imports[key]);
    if rendered.None? { return Error; }
    var spc := rendered.value;
    server.Interfere(weather.second);
    if weather.lookFails { return Error; }
    var existing := if key in server.classes then Some(server.classes[key]) else None;
    server.Interfere(weather.third);
    var ok := false;
    if !weather.writeFails || weather.writeDone {
      match existing {
        case None => ok := server.Create(spc);
        case Some(stored) => ok := server.Update(spc, stored.version);
      }
    }
    if weather.writeFails || !ok { return Error; }
    outcome := if existing.None? then Created else Updated;
  }

  // Others wrote or deleted the class of this key.
  predicate Touches(op: Foreign, key: Key) {
    (op.PutClass? || op.DeleteClass?) && op.key == key
  }

  predicate Untouched(ops: seq<Foreign>, key: Key) {
    forall k | 0 <= k < |ops| :: !Touches(ops[k], key)
  }

  // A stored object that is seen again with the same version has not been touched.
  lemma {:induction false} SameVersion(s: Server, ops: seq<Foreign>, key: Key, version: nat)
    requires VersionsUsed(s) && version < s.next
    ensures VersionsUsed(AfterForeign(s, ops)) && s.next <= AfterForeign(s, ops).next
    ensures key in AfterForeign(s, ops).classes && AfterForeign(s, ops).classes[key].version == version
      ==> key in s.classes && s.classes[key] == AfterForeign(s, ops).classes[key]
    ensures key in AfterForeign(s, ops).classes && AfterForeign(s, ops).classes[key].version == version
      ==> Untouched(ops, key)
    decreases |ops|
  {
    if ops != [] {
      var t := Interfered(s, ops[0]);
      SameVersion(t, ops[1..], key, version);
      if key in AfterForeign(s, ops).classes && AfterForeign(s, ops).classes[key].version == version {
        assert key in t.classes && t.classes[key].version == version;
        assert ops == [ops[0]] + ops[1..];
      }
    }
  }

  lemma {:induction false} ForeignKeeps(s: Server, ops: seq<Foreign>)
    requires VersionsUsed(s)
    ensures VersionsUsed(AfterForeign(s, ops)) && s.next <= AfterForeign(s, ops).next
    decreases |ops|
  {
    if ops != [] { ForeignKeeps(Interfered(s, ops[0]), ops[1..]); }
  }

  lemma {:induction false} UntouchedStays(s: Server, ops: seq<Foreign>, key: Key)
    requires Untouched(ops, key) && key in s.classes
    ensures key in AfterForeign(s, ops).classes && AfterForeign(s, ops).classes[key] == s.classes[key]
    decreases |ops|
  {
    if ops != [] {
      assert !Touches(ops[0], key);
      UntouchedStays(Interfered(s, ops[0]), ops[1..], key);
    }
  }

  lemma RenderedKey(c: Codecs, key: Key, i: Import)
    ensures Rendered(c, key, i).Some? ==> Rendered(c, key, i).value.key == key
  {
  }

  // The rendering of the import that was read is stored.  The object was created where there was
  // none, or replaced the very object that had been looked at, which nobody touched in between.
  predicate WroteSafely(c: Codecs, s: Server, key: Key, weather: Weather) {
    var s1 := AfterForeign(s, weather.first);
    var s2 := AfterForeign(s1, weather.second);
    var s3 := AfterForeign(s2, weather.third);
    var (t, outcome) := Reconciled(c, s, key, weather);
    && key in s1.imports && key in t.classes && Some(t.classes[key].spc) == Rendered(c, key, s1.imports[key])
    && t.classes - {key} == s3.classes - {key} && t.imports == s3.imports
    && (outcome == Created <==> key !in s2.classes)
    && (outcome == Created ==> key !in s3.classes)
    && (outcome == Updated ==> key in s3.classes && s3.classes[key] == s2.classes[key] && Untouched(weather.third, key))
  }

  /** A reconciliation that reports a write has written safely, whatever others do at any time. */
  lemma SuccessMeaning(c: Codecs, s: Server, key: Key, weather: Weather)
    requires VersionsUsed(s)
    requires Reconciled(c, s, key, weather).1 in {Created, Updated}
    ensures WroteSafely(c, s, key, weather)
  {
    var s1 := AfterForeign(s, weather.first);
    RenderedKey(c, key, s1.imports[key]);
    hide Rendered;
    var s2 := AfterForeign(s1, weather.second);
    ForeignKeeps(s, weather.first);
    ForeignKeeps(s1, weather.second);
    if key in s2.classes {
      SameVersion(s2, weather.third, key, s2.classes[key].version);
    }
  }

  /** If no call fails by itself, the write goes through exactly when nobody touched the object that
      was looked at, or there still is none. */
  lemma SucceedsExactly(c: Codecs, s: Server, key: Key, weather: Weather)
    requires VersionsUsed(s) && !weather.readFails && !weather.lookFails && !weather.writeFails
    requires var s1 := AfterForeign(s, weather.first); key in s1.imports && Rendered(c, key, s1.imports[key]).Some?
    ensures var s2 := AfterForeign(AfterForeign(s, weather.first), weather.second);
      Reconciled(c, s, key, weather).1 in {Created, Updated} <==>
        if key in s2.classes then Untouched(weather.third, key) else key !in AfterForeign(s2, weather.third).classes
  {
    var s1 := AfterForeign(s, weather.first);
    RenderedKey(c, key, s1.imports[key]);
    hide Rendered;
    var s2 := AfterForeign(s1, weather.second);
    ForeignKeeps(s, weather.first);
    ForeignKeeps(s1, weather.second);
    if key in s2.classes {
      SameVersion(s2, weather.third, key, s2.classes[key].version);
      if Untouched(weather.third, key) { UntouchedStays(s2, weather.third, key); }
    }
  }

  // Whatever happens, versions are not used twice.
  lemma ReconciledKeeps(c: Codecs, s: Server, key: Key, weather: Weather)
    requires VersionsUsed(s)
    ensures VersionsUsed(Reconciled(c, s, key, weather).0)
  {
    hide Rendered;
    var s1 := AfterForeign(s, weather.first);
    var s2 := AfterForeign(s1, weather.second);
    ForeignKeeps(s, weather.first);
    ForeignKeeps(s1, weather.second);
    ForeignKeeps(s2, weather.third);
  }

  function DisturbedRuns(c: Codecs, s: Server, key: Key, weathers: seq<Weather>): Server
    decreases |weathers|
  {
    if weathers == [] then s else DisturbedRuns(c, Reconciled(c, s, key, weathers[0]).0, key, weathers[1..])
  }

  /** The same holds for every run in a sequence of runs, however disturbed. */
  lemma {:induction false} EveryRunSafe(c: Codecs, s: Server, key: Key, weathers: seq<Weather>, k: nat)
    requires VersionsUsed(s) && k < |weathers|
    ensures var before := DisturbedRuns(c, s, key, weathers[..k]);
      && VersionsUsed(before)
      && (Reconciled(c, before, key, weathers[k]).1 in {Created, Updated} ==> WroteSafely(c, before, key, weathers[k]))
    decreases k
  {
    if k == 0 {
      assert weathers[..0] == [];
      if Reconciled(c, s, key, weathers[0]).1 in {Created, Updated} { SuccessMeaning(c, s, key, weathers[0]); }
    } else {
      assert weathers[..k][1..] == weathers[1..][..k - 1];
      ReconciledKeeps(c, s, key, weathers[0]);
      EveryRunSafe(c, Reconciled(c, s, key, weathers[0]).0, key, weathers[1..], k - 1);
    }
  }

  /** Without a report of success the stored class is what the others left, or, where the answer to
      the write was lost, the rendering; nothing else has changed. */
  lemma FailureMeaning(c: Codecs, s: Server, key: Key, weather: Weather)
    requires Reconciled(c, s, key, weather).1 in {Error, Nothing}
    ensures var t := Reconciled(c, s, key, weather).0;
      var s1 := AfterForeign(s, weather.first);
      var s3 := AfterForeign(AfterForeign(s1, weather.second), weather.third);
      || t == s1 || t == AfterForeign(s1, weather.second) || t == s3
      || (&& weather.writeFails && key in s1.imports && key in t.classes
          && Some(t.classes[key].spc) == Rendered(c, key, s1.imports[key])
          && t.classes - {key} == s3.classes - {key} && t.imports == s3.imports)
  {
    var s1 := AfterForeign(s, weather.first);
    if key in s1.imports { RenderedKey(c, key, s1.imports[key]); }
  }

  function CalmRuns(c: Codecs, s: Server, key: Key, n: nat): Server
    decreases n
  {
    if n == 0 then s else CalmRuns(c, Reconciled(c, s, key, CALM).0, key, n - 1)
  }

  /** Left alone, one run reaches the rendering, and any number of runs keeps it. */
  lemma {:induction false} Converges(c: Codecs, s: Server, key: Key, n: nat)
    requires key in s.imports && Rendered(c, key, s.imports[key]).Some? && n > 0
    ensures var t := CalmRuns(c, s, key, n);
      && t.imports == s.imports && t.classes - {key} == s.classes - {key}
      && key in t.classes && Some(t.classes[key].spc) == Rendered(c, key, s.imports[key])
    ensures Reconciled(c, s, key, CALM).1 == if key in s.classes then Updated else Created
    decreases n
  {
    var t := Reconciled(c, s, key, CALM).0;
    if n > 1 {
      Converges(c, t, key, n - 1);
    } else {
      assert CalmRuns(c, t, key, 0) == t;
    }
  }

  // ----- the node -----

  datatype Payload = Payload(path: string, contents: string, mode: int)

  datatype Projection = Projection(data: string, mode: int)

  /** What the driver sends to the provider: the class's parameters, those of the pod, and the
      secret objects. */
  function Attributes(c: Codecs, spc: Class, podInfo: map<string, string>): Option<string> {
    var parameters := spc.parameters + podInfo;
    if spc.secretObjects == [] then c.mapToJson(parameters)
    else
      match c.objectsToJson(spc.secretObjects)
      case None => None
      case Some(json) => c.mapToJson(parameters[SECRET_OBJECTS := json])
  }

  // MountContent: attributes that cannot be parsed count as none.
  function SecretObjectsIn(c: Codecs, attributes: string): string {
    match c.mapFromJson(attributes)
    case None => ""
    case Some(m) => Lookup(m, SECRET_OBJECTS)
  }

  function ParsedObjects(c: Codecs, json: string): seq<SecretObject> {
    if json == "" then []
    else
      match c.objectsFromJson(json)
      case None => []
      case Some(objects) => objects
  }

  predicate MarksIn(data: seq<ObjectData>, name: string) {
    exists j :: 0 <= j < |data| && data[j].decodeBase64 && data[j].objectName == name
  }

  // Some entry asks for this file to be decoded.
  predicate Marks(objects: seq<SecretObject>, name: string) {
    exists i :: 0 <= i < |objects| && MarksIn(objects[i].data, name)
  }

  function ContentOf(c: Codecs, marked: bool, contents: string): Option<string> {
    if marked then c.decodeBase64(contents) else Some(contents)
  }

  predicate Undecodable(c: Codecs, objects: seq<SecretObject>, payload: Payload) {
    ContentOf(c, Marks(objects, payload.path), payload.contents).None?
  }

  // The last payload of a path counts.
  function Projected(c: Codecs, objects: seq<SecretObject>, payloads: seq<Payload>): map<string, Projection>
    requires forall k | 0 <= k < |payloads| :: !Undecodable(c, objects, payloads[k])
    decreases |payloads|
  {
    if payloads == [] then map[]
    else
      var last := payloads[|payloads| - 1];
      assert !Undecodable(c, objects, last);
      Projected(c, objects, payloads[..|payloads| - 1])
        [last.path := Projection(ContentOf(c, Marks(objects, last.path), last.contents).value, last.mode)]
  }

  method CollectDecode(objects: seq<SecretObject>) returns (decode: map<string, bool>)
    ensures forall name :: name in decode && decode[name] <==> Marks(objects, name)
  {
    decode := map[];
    var i := 0;
    while i < |objects|
      invariant 0 <= i <= |objects|
      invariant forall name :: name in decode && decode[name] <==>
        exists k :: 0 <= k < i && MarksIn(objects[k].data, name)
    {
      var data := objects[i].data;
      ghost var before := decode;
      var j := 0;
      while j < |data|
        invariant 0 <= j <= |data|
        invariant forall name :: name in decode && decode[name] <==>
          || (name in before && before[name])
          || exists k :: 0 <= k < j && data[k].decodeBase64 && data[k].objectName == name
      {
        if data[j].decodeBase64 { decode := decode[data[j].objectName := true]; }
        j := j + 1;
      }
      assert forall name :: name in decode && decode[name] <==>
        (name in before && before[name]) || MarksIn(objects[i].data, name);
      i := i + 1;
    }
  }

  class Directory {
    var files: map<string, Projection>

    constructor ()
      ensures files == map[]
    {
      files := map[];
    }

    /** The atomic writer replaces all files at once, or fails and leaves them. */
    method Replace(newFiles: map<string, Projection>, ok: bool)
      modifies this
      ensures files == if ok then newFiles else old(files)
    {
      if ok { files := newFiles; }
    }

    /** WritePayloads: nothing is written if one file that is marked cannot be decoded. */
    method WritePayloads(c: Codecs, payloads: seq<Payload>, json: string, valid: bool,
                         writable: bool) returns (ok: bool)
      modifies this
      ensures ok <==>
        && valid && writable
        && forall k | 0 <= k < |payloads| :: !Undecodable(c, ParsedObjects(c, json), payloads[k])
      ensures !ok ==> files == old(files)
      ensures ok ==> files == Projected(c, ParsedObjects(c, json), payloads)
    {
      if !valid { return false; }
      var decode: map<string, bool> := map[];
      ghost var objects := ParsedObjects(c, json);
      if json != "" {
        match c.objectsFromJson(json) {
          case None =>
          case Some(parsed) => decode := CollectDecode(parsed);
        }
      }
      var newFiles: map<string, Projection> := map[];
      var i := 0;
      while i < |payloads|
        invariant 0 <= i <= |payloads|
        invariant forall k | 0 <= k < i :: !Undecodable(c, objects, payloads[k])
        invariant newFiles == Projected(c, objects, payloads[..i])
      {
        var payload := payloads[i];
        var contents := payload.contents;
        if payload.path in decode && decode[payload.path] {
          match c.decodeBase64(contents) {
            case None =>
              assert Undecodable(c, objects, payloads[i]);
              return false;
            case Some(decoded) => contents := decoded;
          }
        }
        assert payloads[..i + 1][..i] == payloads[..i];
        newFiles := newFiles[payload.path := Projection(contents, payload.mode)];
        i := i + 1;
      }
      assert payloads[..i] == payloads;
      Replace(newFiles, writable);
      ok := writable;
    }
  }

  // ----- from the import to the files -----

  predicate DistinctNames(files: seq<File>) {
    forall i, j :: 0 <= i < j < |files| ==> files[i].name != files[j].name
  }

  predicate DistinctPaths(payloads: seq<Payload>) {
    forall i, j :: 0 <= i < j < |payloads| ==> payloads[i].path != payloads[j].path
  }

  // The marks survive the rendering, the parameters and their parsing on the node.
  lemma ObjectsArrive(c: Codecs, key: Key, i: Import, podInfo: map<string, string>)
    requires Faithful(c) && Rendered(c, key, i).Some? && Attributes(c, Rendered(c, key, i).value, podInfo).Some?
    ensures var attributes := Attributes(c, Rendered(c, key, i).value, podInfo).value;
      ParsedObjects(c, SecretObjectsIn(c, attributes)) == [SecretObject(key.name, "Opaque", DataEntries(i.spec.files))]
  {
    hide Settings, ParameterNames;
    var spc := Rendered(c, key, i).value;
    var json := c.objectsToJson(spc.secretObjects).value;
    var sent := (spc.parameters + podInfo)[SECRET_OBJECTS := json];
    assert c.mapToJson(sent) == Attributes(c, spc, podInfo);
    assert c.objectsFromJson(json) == Some(spc.secretObjects);
  }

  /** The provider is sent the parameters of the class, each unless the pod's own information replaces
      it, that information, and the secret objects under their own name. */
  lemma AttributesExactly(c: Codecs, spc: Class, podInfo: map<string, string>)
    requires Faithful(c) && Attributes(c, spc, podInfo).Some?
    ensures var sent := c.mapFromJson(Attributes(c, spc, podInfo).value);
      && sent.Some?
      && (forall x | x in spc.parameters && x !in podInfo && x != "secretObjects" ::
            x in sent.value && sent.value[x] == spc.parameters[x])
      && (forall x | x in podInfo && x != "secretObjects" :: x in sent.value && sent.value[x] == podInfo[x])
      && (forall x | x in sent.value :: x in spc.parameters || x in podInfo || x == "secretObjects")
      && (spc.secretObjects != [] ==>
            "secretObjects" in sent.value
            && c.objectsFromJson(sent.value["secretObjects"]) == Some(spc.secretObjects))
  {
    var parameters := spc.parameters + podInfo;
    hide Faithful;
    if spc.secretObjects != [] {
      var json := c.objectsToJson(spc.secretObjects).value;
      ParsesBack(c, parameters["secretObjects" := json], spc.secretObjects);
    } else {
      ParsesBack(c, parameters, []);
    }
  }

  lemma ParsesBack(c: Codecs, m: map<string, string>, objects: seq<SecretObject>)
    requires Faithful(c)
    ensures c.mapToJson(m).Some? ==> c.mapFromJson(c.mapToJson(m).value) == Some(m)
    ensures c.objectsToJson(objects).Some? ==> c.objectsFromJson(c.objectsToJson(objects).value) == Some(objects)
  {
    if c.mapToJson(m).Some? { assert c.mapToJson(m) == Some(c.mapToJson(m).value); }
    if c.objectsToJson(objects).Some? { assert c.objectsToJson(objects) == Some(c.objectsToJson(objects).value); }
  }

  /** On the node a file is decoded exactly if some entry of its name asks for it. */
  lemma MarkedExactly(secretName: string, files: seq<File>, name: string)
    ensures Marks([SecretObject(secretName, "Opaque", DataEntries(files))], name)
      <==> exists k :: 0 <= k < |files| && files[k].name == name && files[k].decodeBase64
  {
    var objects := [SecretObject(secretName, "Opaque", DataEntries(files))];
    if k :| 0 <= k < |files| && files[k].name == name && files[k].decodeBase64 {
      assert objects[0].data[k].decodeBase64;
    }
    if Marks(objects, name) {
      var j :| 0 <= j < |objects[0].data| && objects[0].data[j].decodeBase64 && objects[0].data[j].objectName == name;
      assert files[j].name == name;
    }
  }

  lemma {:induction false} ProjectedAt(c: Codecs, objects: seq<SecretObject>, payloads: seq<Payload>, k: nat)
    requires forall j | 0 <= j < |payloads| :: !Undecodable(c, objects, payloads[j])
    requires DistinctPaths(payloads) && k < |payloads|
    ensures payloads[k].path in Projected(c, objects, payloads)
    ensures Projected(c, objects, payloads)[payloads[k].path] ==
      Projection(ContentOf(c, Marks(objects, payloads[k].path), payloads[k].contents).value, payloads[k].mode)
    decreases |payloads|
  {
    if k < |payloads| - 1 {
      ProjectedAt(c, objects, payloads[..|payloads| - 1], k);
    }
  }

  lemma {:induction false} ProjectedOnly(c: Codecs, objects: seq<SecretObject>, payloads: seq<Payload>, path: string)
    requires forall j | 0 <= j < |payloads| :: !Undecodable(c, objects, payloads[j])
    requires path in Projected(c, objects, payloads)
    ensures IsPayload(payloads, path)
    decreases |payloads|
  {
    if payloads[|payloads| - 1].path != path {
      ProjectedOnly(c, objects, payloads[..|payloads| - 1], path);
      var k :| 0 <= k < |payloads| - 1 && payloads[..|payloads| - 1][k].path == path;
      assert payloads[k].path == path;
    }
  }

  predicate IsPayload(payloads: seq<Payload>, path: string) {
    exists k :: 0 <= k < |payloads| && payloads[k].path == path
  }

  /** What an import with distinct file names means for the files of a pod: a payload that the
      provider returns for a file is decoded exactly if the file says so, every file written is one of
      the payloads, and if one of them cannot be decoded nothing is written. */
  lemma FileMeaning(c: Codecs, key: Key, i: Import, podInfo: map<string, string>, payloads: seq<Payload>, j: nat,
                    k: nat)
    requires Faithful(c) && Rendered(c, key, i).Some? && Attributes(c, Rendered(c, key, i).value, podInfo).Some?
    requires DistinctNames(i.spec.files) && DistinctPaths(payloads)
    requires j < |payloads| && k < |i.spec.files| && payloads[j].path == i.spec.files[k].name
    ensures var attributes := Attributes(c, Rendered(c, key, i).value, podInfo).value;
      var objects := ParsedObjects(c, SecretObjectsIn(c, attributes));
      var file, contents := i.spec.files[k], payloads[j].contents;
      && (Undecodable(c, objects, payloads[j]) <==> file.decodeBase64 && c.decodeBase64(contents).None?)
      && ((forall n | 0 <= n < |payloads| :: !Undecodable(c, objects, payloads[n])) ==>
            && file.name in Projected(c, objects, payloads)
            && (forall path | path in Projected(c, objects, payloads) :: IsPayload(payloads, path))
            && Projected(c, objects, payloads)[file.name] ==
                 Projection(if file.decodeBase64 then c.decodeBase64(contents).value else contents,
                            payloads[j].mode))
  {
    var objects := ParsedObjects(c, SecretObjectsIn(c, Attributes(c, Rendered(c, key, i).value, podInfo).value));
    ObjectsArrive(c, key, i, podInfo);
    hide Rendered, Attributes, SecretObjectsIn, ParsedObjects;
    MarkedExactly(key.name, i.spec.files, payloads[j].path);
    assert Marks(objects, payloads[j].path) <==> i.spec.files[k].decodeBase64;
    if forall n | 0 <= n < |payloads| :: !Undecodable(c, objects, payloads[n]) {
      ProjectedAt(c, objects, payloads, j);
      forall path | path in Projected(c, objects, payloads) ensures IsPayload(payloads, path) {
        ProjectedOnly(c, objects, payloads, path);
      }
    }
  }
}
