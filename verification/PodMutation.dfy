/** The admission webhook's rewriting of a pod. */
module PodMutation {
  import opened Strings
  import Pattern
  import References
  import Resolver
  import Startup
  import Vault

  datatype EnvVar = EnvVar(name: string, value: string, valueFrom: Option<string>)

  datatype Mount = Mount(name: string, path: string)

  datatype Probe = Probe(exec: Option<seq<string>>, settings: string)

  datatype Container = Container(
    name: string, image: string, command: seq<string>, args: seq<string>,
    envFrom: seq<string>, env: seq<EnvVar>, mounts: seq<Mount>,
    liveness: Option<Probe>, readiness: Option<Probe>, startup: Option<Probe>)

  datatype VolumeSource = Memory | CaCertificateOf(secret: string) | Other(text: string)

  datatype Volume = Volume(name: string, source: VolumeSource)

  datatype ImageConfig = ImageConfig(entrypoint: seq<string>, cmd: seq<string>)

  datatype Lookup = Fault | Nothing | Found(env: EnvVar)

  /** The config maps, secrets and image registry that the webhook asks, as functions. */
  datatype Cluster = Cluster(
    envFrom: seq<string> -> Option<seq<EnvVar>>,
    valueFrom: EnvVar -> Lookup,
    image: string -> Option<ImageConfig>)

  datatype Config = Config(
    addr: string, skipVerify: bool, authMethod: string, path: string, role: string,
    ignoreMissing: string, passThrough: string, jsonLog: string, clientTimeout: string,
    tokenPath: string, token: string, logLevel: string, namespace: string,
    tlsSecret: string, caCertBytes: string, envFromPath: string,
    restart: string, pollInterval: string,
    mutateProbes: bool, skip: seq<string>, envImage: string)

  const MARKER := "stronghold-env"
  const TLS := "vault-tls"
  const OTHER_TLS := "stronghold-env-tls"
  const INJECTOR := "/vault/env-injector"
  const IMAGE_INJECTOR := "/bin/env-injector"
  const SELF_COPY := "--self-copy"
  const DUMMY_RUN := "--dummy-run"

  predicate HasVolume(volumes: seq<Volume>, name: string) {
    exists k :: 0 <= k < |volumes| && volumes[k].name == name
  }

  predicate HasVar(env: seq<EnvVar>, name: string) {
    exists k :: 0 <= k < |env| && env[k].name == name
  }

  function FormatBool(b: bool): string { if b then "true" else "false" }

  function Plain(name: string, value: string): EnvVar { EnvVar(name, value, None) }

  // ----- which containers are rewritten -----

  predicate IsTemplate(value: string) {
    Startup.IsValidPrefix(value) || Pattern.HasInline(value)
  }

  function FromEntry(cluster: Cluster, e: EnvVar): Option<seq<EnvVar>> {
    var own := if IsTemplate(e.value) then [e] else [];
    if e.valueFrom.None? then Some(own)
    else
      match cluster.valueFrom(e)
      case Fault => None
      case Nothing => Some(own)
      case Found(v) => Some(own + [v])
  }

  function FromEnv(cluster: Cluster, env: seq<EnvVar>): Option<seq<EnvVar>>
    decreases |env|
  {
    if env == [] then Some([])
    else
      match (FromEnv(cluster, env[..|env| - 1]), FromEntry(cluster, env[|env| - 1]))
      case (Some(before), Some(here)) => Some(before + here)
      case _ => None
  }

  // The variables of a container that hold a template; none if a lookup fails.
  function Templates(cluster: Cluster, c: Container): Option<seq<EnvVar>> {
    match (if c.envFrom == [] then Some([]) else cluster.envFrom(c.envFrom), FromEnv(cluster, c.env))
    case (Some(a), Some(b)) => Some(a + b)
    case _ => None
  }

  /** What Kubernetes starts: its table of command, arguments, image entrypoint and image command. */
  function Argv(c: Container, image: ImageConfig): seq<string> {
    if c.command != [] then c.command + c.args
    else if c.args != [] then image.entrypoint + c.args
    else image.entrypoint + image.cmd
  }

  // The image is asked only for a container without a command.
  function ImageOf(cluster: Cluster, c: Container): Option<ImageConfig> {
    if c.command != [] then Some(ImageConfig([], [])) else cluster.image(c.image)
  }

  datatype Decision = Failed | Left | Rewritten(result: Container)

  predicate Skipped(cfg: Config, c: Container) { c.name in cfg.skip }

  function Decide(cluster: Cluster, cfg: Config, otherTls: bool, c: Container): Decision {
    match Templates(cluster, c)
    case None => Failed
    case Some(templates) =>
      if (templates == [] && cfg.envFromPath == "") || Skipped(cfg, c) then Left
      else
        match ImageOf(cluster, c)
        case None => Failed
        case Some(image) => Rewritten(Rewrite(cfg, otherTls, c, image))
  }

  // ----- what a rewritten container looks like -----

  function TlsName(otherTls: bool): string { if otherTls then OTHER_TLS else TLS }

  function TlsPath(otherTls: bool): string { if otherTls then "/stronghold-env/tls/" else "/vault/tls/" }

  function When(condition: bool, entries: seq<EnvVar>): seq<EnvVar> { if condition then entries else [] }

  function Always(cfg: Config): seq<EnvVar> {
    [Plain("VAULT_ADDR", cfg.addr), Plain("VAULT_SKIP_VERIFY", FormatBool(cfg.skipVerify)),
     Plain("VAULT_AUTH_METHOD", cfg.authMethod), Plain("VAULT_PATH", cfg.path), Plain("VAULT_ROLE", cfg.role),
     Plain("VAULT_IGNORE_MISSING_SECRETS", cfg.ignoreMissing), Plain("VAULT_ENV_PASSTHROUGH", cfg.passThrough),
     Plain("VAULT_JSON_LOG", cfg.jsonLog), Plain("VAULT_CLIENT_TIMEOUT", cfg.clientTimeout)]
  }

  function ForTls(cfg: Config, otherTls: bool): seq<EnvVar> {
    if cfg.tlsSecret != "" then [Plain("VAULT_CACERT", TlsPath(otherTls) + "ca.crt")]
    else When(cfg.caCertBytes != "", [Plain("VAULT_CACERT_BYTES", cfg.caCertBytes)])
  }

  function ForRestart(cfg: Config): seq<EnvVar> {
    if cfg.restart == "watch-for-lease" then
      [Plain("VAULT_ENV_RESTART_ON_SECRET_CHANGE", "watch-for-lease"), Plain("VAULT_ENV_DAEMON", "true")]
    else
      When(cfg.restart == "watch-for-data",
           [Plain("VAULT_ENV_RESTART_ON_SECRET_CHANGE", "watch-for-data"),
            Plain("VAULT_ENV_SECRET_POLL_INTERVAL", cfg.pollInterval)])
  }

  // A log level of the container's own is kept.
  function Added(cfg: Config, otherTls: bool, logLevelSet: bool): seq<EnvVar> {
    Always(cfg)
    + When(cfg.tokenPath != "", [Plain("VAULT_JWT_FILE", cfg.tokenPath)])
    + When(cfg.token != "", [Plain("VAULT_TOKEN", cfg.token)])
    + When(!logLevelSet && cfg.logLevel != "", [Plain("VAULT_LOG_LEVEL", cfg.logLevel)])
    + When(cfg.namespace != "", [Plain("VAULT_NAMESPACE", cfg.namespace)])
    + ForTls(cfg, otherTls)
    + When(cfg.envFromPath != "", [Plain("VAULT_ENV_FROM_PATH", cfg.envFromPath)])
    + ForRestart(cfg)
  }

  function AddedMounts(cfg: Config, otherTls: bool): seq<Mount> {
    [Mount(MARKER, "/vault/")] + if cfg.tlsSecret != "" then [Mount(TlsName(otherTls), TlsPath(otherTls))] else []
  }

  function Wrapped(probe: Option<Probe>): Option<Probe> {
    if probe.Some? && probe.value.exec.Some? then
      Some(probe.value.(exec := Some([INJECTOR] + probe.value.exec.value)))
    else probe
  }

  function ProbeOf(cfg: Config, probe: Option<Probe>): Option<Probe> {
    if cfg.mutateProbes then Wrapped(probe) else probe
  }

  function Rewrite(cfg: Config, otherTls: bool, c: Container, image: ImageConfig): Container {
    c.(command := [INJECTOR],
       args := Argv(c, image),
       env := c.env + Added(cfg, otherTls, HasVar(c.env, "VAULT_LOG_LEVEL")),
       mounts := c.mounts + AddedMounts(cfg, otherTls),
       liveness := ProbeOf(cfg, c.liveness),
       readiness := ProbeOf(cfg, c.readiness),
       startup := ProbeOf(cfg, c.startup))
  }

  // ----- the loops of the source -----

  method CollectTemplates(cluster: Cluster, c: Container) returns (ok: bool, envVars: seq<EnvVar>)
    ensures ok <==> Templates(cluster, c).Some?
    ensures ok ==> Templates(cluster, c) == Some(envVars)
  {
    envVars := [];
    if |c.envFrom| > 0 {
      match cluster.envFrom(c.envFrom) {
        case None => return false, [];
        case Some(found) => envVars := found;
      }
    }
    ghost var first := envVars;
    var i := 0;
    while i < |c.env|
      invariant 0 <= i <= |c.env|
      invariant FromEnv(cluster, c.env[..i]).Some? && envVars == first + FromEnv(cluster, c.env[..i]).value
    {
      var env := c.env[i];
      assert c.env[..i + 1][..i] == c.env[..i];
      if IsTemplate(env.value) { envVars := envVars + [env]; }
      if env.valueFrom.Some? {
        match cluster.valueFrom(env) {
          case Fault =>
            EnvFails(cluster, c.env, i);
            return false, [];
          case Nothing =>
          case Found(v) => envVars := envVars + [v];
        }
      }
      i := i + 1;
    }
    assert c.env[..i] == c.env;
    ok := true;
  }

  lemma {:induction false} EnvFails(cluster: Cluster, env: seq<EnvVar>, i: nat)
    requires i < |env| && FromEntry(cluster, env[i]).None?
    ensures FromEnv(cluster, env).None?
    decreases |env|
  {
    if i < |env| - 1 { EnvFails(cluster, env[..|env| - 1], i); }
  }

  method MutateProbe(probe: Option<Probe>) returns (result: Option<Probe>)
    ensures result == Wrapped(probe)
  {
    result := probe;
    if probe.Some? && probe.value.exec.Some? {
      var cmd := [INJECTOR];
      cmd := cmd + probe.value.exec.value;
      result := Some(probe.value.(exec := Some(cmd)));
    }
  }

  method AppendIf(env: seq<EnvVar>, condition: bool, entry: EnvVar) returns (result: seq<EnvVar>)
    ensures result == env + When(condition, [entry])
  {
    result := env;
    if condition { result := result + [entry]; }
  }

  method ExtendEnv(env: seq<EnvVar>, cfg: Config, otherTls: bool) returns (result: seq<EnvVar>)
    ensures result == env + Added(cfg, otherTls, HasVar(env, "VAULT_LOG_LEVEL"))
  {
    var added := Always(cfg);
    added := AppendIf(added, cfg.tokenPath != "", Plain("VAULT_JWT_FILE", cfg.tokenPath));
    added := AppendIf(added, cfg.token != "", Plain("VAULT_TOKEN", cfg.token));
    added := AppendIf(added, !HasVar(env, "VAULT_LOG_LEVEL") && cfg.logLevel != "",
                      Plain("VAULT_LOG_LEVEL", cfg.logLevel));
    added := AppendIf(added, cfg.namespace != "", Plain("VAULT_NAMESPACE", cfg.namespace));
    added := added + ForTls(cfg, otherTls);
    added := AppendIf(added, cfg.envFromPath != "", Plain("VAULT_ENV_FROM_PATH", cfg.envFromPath));
    added := added + ForRestart(cfg);
    result := env + added;
  }

  method MutateProbes(cfg: Config, c: Container) returns (result: Container)
    ensures result == c.(liveness := ProbeOf(cfg, c.liveness), readiness := ProbeOf(cfg, c.readiness),
                         startup := ProbeOf(cfg, c.startup))
  {
    result := c;
    if cfg.mutateProbes {
      var liveness := MutateProbe(c.liveness);
      var readiness := MutateProbe(c.readiness);
      var startup := MutateProbe(c.startup);
      result := c.(liveness := liveness, readiness := readiness, startup := startup);
    }
  }

  /** The command line that the image, the command and the arguments make. */
  method CollectArgs(cluster: Cluster, c: Container) returns (ok: bool, args: seq<string>)
    ensures ok <==> ImageOf(cluster, c).Some?
    ensures ok ==> args == Argv(c, ImageOf(cluster, c).value)
  {
    args := c.command;
    if |args| == 0 {
      match cluster.image(c.image) {
        case None => return false, [];
        case Some(image) =>
          args := args + image.entrypoint;
          if |c.args| == 0 { args := args + image.cmd; }
      }
    }
    args := args + c.args;
    ok := true;
  }

  // The body of the source's loop.
  method MutateContainer(cluster: Cluster, cfg: Config, volumes: seq<Volume>, c: Container) returns (decision: Decision)
    ensures decision == Decide(cluster, cfg, HasVolume(volumes, TLS), c)
    ensures decision.Rewritten? ==>
      forall any: ImageConfig :: Argv(decision.result, any) == [INJECTOR] + Argv(c, ImageOf(cluster, c).value)
  {
    var found, envVars := CollectTemplates(cluster, c);
    if !found { return Failed; }
    if |envVars| == 0 && cfg.envFromPath == "" { return Left; }
    if c.name in cfg.skip { return Left; }
    var ok, args := CollectArgs(cluster, c);
    if !ok { return Failed; }
    var container := c.(command := [INJECTOR], args := args);
    container := MutateProbes(cfg, container);
    var mounts := container.mounts + [Mount(MARKER, "/vault/")];
    var env := ExtendEnv(container.env, cfg, HasVolume(volumes, TLS));
    if cfg.tlsSecret != "" {
      mounts := mounts + [Mount(TlsName(HasVolume(volumes, TLS)), TlsPath(HasVolume(volumes, TLS)))];
    }
    assert mounts == c.mounts + AddedMounts(cfg, HasVolume(volumes, TLS));
    decision := Rewritten(container.(env := env, mounts := mounts));
  }

  predicate Fails(cluster: Cluster, cfg: Config, otherTls: bool, c: Container) {
    Decide(cluster, cfg, otherTls, c).Failed?
  }

  function Result(cluster: Cluster, cfg: Config, otherTls: bool, c: Container): Container {
    match Decide(cluster, cfg, otherTls, c)
    case Rewritten(result) => result
    case _ => c
  }

  predicate Changes(cluster: Cluster, cfg: Config, otherTls: bool, c: Container) {
    Decide(cluster, cfg, otherTls, c).Rewritten?
  }

  predicate AnyChanges(cluster: Cluster, cfg: Config, otherTls: bool, containers: seq<Container>) {
    exists k :: 0 <= k < |containers| && Changes(cluster, cfg, otherTls, containers[k])
  }

  predicate NoneFails(cluster: Cluster, cfg: Config, otherTls: bool, containers: seq<Container>) {
    forall k :: 0 <= k < |containers| ==> !Fails(cluster, cfg, otherTls, containers[k])
  }

  function Results(cluster: Cluster, cfg: Config, otherTls: bool, containers: seq<Container>): seq<Container> {
    seq(|containers|, k requires 0 <= k < |containers| => Result(cluster, cfg, otherTls, containers[k]))
  }

  predicate StoppedAt(cluster: Cluster, cfg: Config, otherTls: bool, was: seq<Container>, now: seq<Container>, k: int) {
    && 0 <= k < |was| && Fails(cluster, cfg, otherTls, was[k])
    && now == Results(cluster, cfg, otherTls, was[..k]) + was[k..]
  }

  /** Containers are rewritten one by one, in place.  The first failure ends the loop: what comes
      before it stays rewritten, the rest is untouched. */
  method MutateContainers(containers: array<Container>, cluster: Cluster, cfg: Config, volumes: seq<Volume>)
    returns (ok: bool, mutated: bool)
    modifies containers
    ensures ok <==> NoneFails(cluster, cfg, HasVolume(volumes, TLS), old(containers[..]))
    ensures ok ==> containers[..] == Results(cluster, cfg, HasVolume(volumes, TLS), old(containers[..]))
    ensures ok ==> (mutated <==> AnyChanges(cluster, cfg, HasVolume(volumes, TLS), old(containers[..])))
    ensures !ok ==> exists k :: StoppedAt(cluster, cfg, HasVolume(volumes, TLS), old(containers[..]), containers[..], k)
  {
    hide Decide;
    ghost var otherTls := HasVolume(volumes, TLS);
    ghost var was := containers[..];
    mutated := false;
    var i := 0;
    while i < containers.Length
      invariant 0 <= i <= containers.Length
      invariant forall k :: 0 <= k < i ==> !Fails(cluster, cfg, otherTls, was[k])
      invariant forall k :: 0 <= k < i ==> containers[k] == Result(cluster, cfg, otherTls, was[k])
      invariant forall k :: i <= k < containers.Length ==> containers[k] == was[k]
      invariant mutated <==> exists k :: 0 <= k < i && Changes(cluster, cfg, otherTls, was[k])
    {
      var decision := MutateContainer(cluster, cfg, volumes, containers[i]);
      match decision {
        case Failed =>
          assert Fails(cluster, cfg, otherTls, was[i]);
          assert containers[..] == Results(cluster, cfg, otherTls, was[..i]) + was[i..];
          assert StoppedAt(cluster, cfg, otherTls, was, containers[..], i);
          return false, false;
        case Left =>
          assert !Changes(cluster, cfg, otherTls, was[i]);
        case Rewritten(result) =>
          assert Changes(cluster, cfg, otherTls, was[i]);
          mutated := true;
          containers[i] := result;
      }
      i := i + 1;
    }
    ok := true;
  }

  // ----- the pod -----

  // What the rewriting can see or change of a pod.
  datatype Spec = Spec(initContainers: seq<Container>, containers: seq<Container>, volumes: seq<Volume>)

  predicate AlreadyMutated(volumes: seq<Volume>) { HasVolume(volumes, MARKER) }

  function CopyContainer(cfg: Config): Container {
    Container("copy-env-injector", cfg.envImage, [IMAGE_INJECTOR, SELF_COPY], [], [], [], [Mount(MARKER, "/vault/")],
              None, None, None)
  }

  function NewVolumes(volumes: seq<Volume>, cfg: Config): seq<Volume> {
    [Volume(MARKER, Memory)]
    + if cfg.tlsSecret != "" then [Volume(TlsName(HasVolume(volumes, TLS)), CaCertificateOf(cfg.tlsSecret))] else []
  }

  predicate PodFails(cluster: Cluster, cfg: Config, pod: Spec) {
    && !AlreadyMutated(pod.volumes)
    && !(NoneFails(cluster, cfg, HasVolume(pod.volumes, TLS), pod.initContainers)
         && NoneFails(cluster, cfg, HasVolume(pod.volumes, TLS), pod.containers))
  }

  predicate PodChanges(cluster: Cluster, cfg: Config, pod: Spec) {
    && !AlreadyMutated(pod.volumes)
    && (AnyChanges(cluster, cfg, HasVolume(pod.volumes, TLS), pod.initContainers)
        || AnyChanges(cluster, cfg, HasVolume(pod.volumes, TLS), pod.containers))
  }

  /** The pod after a run without a failure. */
  function Mutated(cluster: Cluster, cfg: Config, pod: Spec): Spec {
    if !PodChanges(cluster, cfg, pod) then pod
    else
      var otherTls := HasVolume(pod.volumes, TLS);
      Spec([CopyContainer(cfg)] + Results(cluster, cfg, otherTls, pod.initContainers),
           Results(cluster, cfg, otherTls, pod.containers),
           pod.volumes + NewVolumes(pod.volumes, cfg))
  }

  class Pod {
    var initContainers: array<Container>
    var containers: array<Container>
    var volumes: seq<Volume>

    ghost predicate Valid()
      reads this
    {
      initContainers != containers
    }

    ghost function Contents(): Spec
      reads this, initContainers, containers
    {
      Spec(initContainers[..], containers[..], volumes)
    }

    constructor (initContainers: seq<Container>, containers: seq<Container>, volumes: seq<Volume>)
      ensures Valid() && Contents() == Spec(initContainers, containers, volumes)
      ensures fresh(this.initContainers) && fresh(this.containers)
    {
      var first := new Container[|initContainers|](k requires 0 <= k < |initContainers| => initContainers[k]);
      var second := new Container[|containers|](k requires 0 <= k < |containers| => containers[k]);
      this.initContainers := first;
      this.containers := second;
      this.volumes := volumes;
    }
  }

  lemma Unchanged(cluster: Cluster, cfg: Config, otherTls: bool, containers: seq<Container>)
    requires !AnyChanges(cluster, cfg, otherTls, containers)
    ensures Results(cluster, cfg, otherTls, containers) == containers
  {
    hide Decide;
    assert forall k :: 0 <= k < |containers| ==> !Changes(cluster, cfg, otherTls, containers[k]);
  }

  /** MutatePod.  The volume that marks a rewritten pod is added last, and not after a failure. */
  method MutatePod(pod: Pod, cluster: Cluster, cfg: Config) returns (ok: bool)
    requires pod.Valid()
    modifies pod, pod.initContainers, pod.containers
    ensures pod.Valid()
    ensures ok <==> !PodFails(cluster, cfg, old(pod.Contents()))
    ensures ok ==> pod.Contents() == Mutated(cluster, cfg, old(pod.Contents()))
    ensures !ok ==> pod.volumes == old(pod.volumes)
  {
    hide Decide;
    ghost var was := pod.Contents();
    if AlreadyMutated(pod.volumes) { return true; }
    var ok1, initMutated := MutateContainers(pod.initContainers, cluster, cfg, pod.volumes);
    if !ok1 { return false; }
    assert pod.containers[..] == was.containers;
    var ok2, containersMutated := MutateContainers(pod.containers, cluster, cfg, pod.volumes);
    if !ok2 { return false; }
    if initMutated || containersMutated {
      var initContainers := [CopyContainer(cfg)] + pod.initContainers[..];
      pod.initContainers := new Container[|initContainers|](k requires 0 <= k < |initContainers| => initContainers[k]);
      assert pod.initContainers[..] == initContainers;
      pod.volumes := pod.volumes + NewVolumes(pod.volumes, cfg);
    } else {
      Unchanged(cluster, cfg, HasVolume(was.volumes, TLS), was.initContainers);
      Unchanged(cluster, cfg, HasVolume(was.volumes, TLS), was.containers);
    }
    ok := true;
  }

  // ----- what is promised about a rewritten pod -----

  datatype Process = NoCommand | DummyRun | SelfCopy | Runs(command: seq<string>)

  /** What the injector does with its own command line: the rest of it is the command to run. */
  function InjectorStarts(argv: seq<string>): Process
    requires argv != []
  {
    if |argv| == 1 then NoCommand
    else if argv[1..] == [DUMMY_RUN] then DummyRun
    else if argv[1..] == [SELF_COPY] then SelfCopy
    else Runs(argv[1..])
  }

  // The registry answers with the image that the node then runs.
  predicate Serves(cluster: Cluster, c: Container, image: ImageConfig) {
    c.command == [] ==> cluster.image(c.image) == Some(image)
  }

  /** Whatever image the node uses, a rewritten container starts the injector with the original
      command line; it runs that command line exactly when it is not empty and not one of the two
      that the injector keeps for itself. */
  lemma CommandPreserved(cluster: Cluster, cfg: Config, otherTls: bool, c: Container, image: ImageConfig,
                         any: ImageConfig)
    requires Serves(cluster, c, image) && Changes(cluster, cfg, otherTls, c)
    ensures Argv(Result(cluster, cfg, otherTls, c), any) == ["/vault/env-injector"] + Argv(c, image)
    ensures Result(cluster, cfg, otherTls, c).args ==
      if c.command == [] then image.entrypoint + (if c.args == [] then image.cmd else c.args) else c.command + c.args
    ensures InjectorStarts(Argv(Result(cluster, cfg, otherTls, c), any)) == Runs(Argv(c, image))
      <==> Argv(c, image) !in {[], [DUMMY_RUN], [SELF_COPY]}
  {
    var argv := Argv(c, image);
    assert ([INJECTOR] + argv)[1..] == argv;
  }

  /** Rewriting is not idempotent by itself: a container rewritten once more would start the injector
      through the injector.  The marker volume is what prevents it. */
  lemma TwiceIsNotOnce(cfg: Config, otherTls: bool, c: Container, image: ImageConfig, any: ImageConfig)
    ensures var twice := Rewrite(cfg, otherTls, Rewrite(cfg, otherTls, c, image), any);
      Argv(twice, any) == [INJECTOR, INJECTOR] + Argv(c, image)
  {
    assert [INJECTOR] + ([INJECTOR] + Argv(c, image)) == [INJECTOR, INJECTOR] + Argv(c, image);
  }

  // An exec probe still runs its command, through the injector; what else it says is kept.
  predicate Through(cfg: Config, probe: Option<Probe>, now: Option<Probe>) {
    if cfg.mutateProbes && probe.Some? && probe.value.exec.Some? then
      && now.Some? && now.value.exec.Some? && now.value.settings == probe.value.settings
      && now.value.exec.value == ["/vault/env-injector"] + probe.value.exec.value
      && (InjectorStarts(now.value.exec.value) == Runs(probe.value.exec.value)
          <==> probe.value.exec.value !in {[], [DUMMY_RUN], [SELF_COPY]})
    else now == probe
  }

  lemma ProbeThrough(cfg: Config, probe: Option<Probe>)
    ensures Through(cfg, probe, ProbeOf(cfg, probe))
  {
    if cfg.mutateProbes && probe.Some? && probe.value.exec.Some? {
      var cmd := probe.value.exec.value;
      assert ([INJECTOR] + cmd)[1..] == cmd;
    }
  }

  /** Each exec probe of a rewritten container likewise, if probes are to be rewritten; each stays the
      probe that it was. */
  lemma ProbesPreserved(cluster: Cluster, cfg: Config, otherTls: bool, c: Container)
    requires Changes(cluster, cfg, otherTls, c)
    ensures var r := Result(cluster, cfg, otherTls, c);
      && Through(cfg, c.liveness, r.liveness) && Through(cfg, c.readiness, r.readiness)
      && Through(cfg, c.startup, r.startup)
      && r.name == c.name && r.image == c.image && r.envFrom == c.envFrom
  {
    ProbeThrough(cfg, c.liveness);
    ProbeThrough(cfg, c.readiness);
    ProbeThrough(cfg, c.startup);
    var image := ResultIsRewrite(cluster, cfg, otherTls, c);
    hide Decide, Through, Argv, Added, ProbeOf;
  }

  /** The container that is put first copies the injector from its image into the shared volume. */
  lemma CopyRunsFirst(cluster: Cluster, cfg: Config, pod: Spec, image: ImageConfig)
    requires PodChanges(cluster, cfg, pod)
    ensures var first := Mutated(cluster, cfg, pod).initContainers[0];
      && InjectorStarts(Argv(first, image)) == SelfCopy && first.image == cfg.envImage
      && Argv(first, image) == ["/bin/env-injector", "--self-copy"]
      && Mount(MARKER, "/vault/") in first.mounts
  {
    hide Decide;
    assert [IMAGE_INJECTOR, SELF_COPY] + [] == [IMAGE_INJECTOR, SELF_COPY];
    assert [IMAGE_INJECTOR, SELF_COPY][1..] == [SELF_COPY];
    assert SELF_COPY[2] != DUMMY_RUN[2];
  }

  /** What the webhook takes for a template: what begins like a reference or holds one.  The injector
      would pass on everything else as it is. */
  lemma TemplatesExactly(value: string, w: Vault.World, cfg: Vault.Config, rd: Vault.Reader, name: string)
    ensures IsTemplate(value) <==>
      OccursAt("secrets-store:", value, 0) || OccursAt(">>secrets-store:", value, 0) || Pattern.FindAll(value) != []
    ensures !IsTemplate(value) ==> Resolver.Direct(w, cfg, rd, name, value) == Resolver.Resolved(value)
  {
    assert ">>" + Pattern.Marker == ">>secrets-store:";
    hide Pattern.FindAll, Resolver.Direct;
    if !IsTemplate(value) { References.LiteralMeaning(w, cfg, rd, name, value); }
  }

  // The variable holds a template, or refers to one elsewhere.
  predicate HoldsTemplate(cluster: Cluster, e: EnvVar) {
    IsTemplate(e.value) || (e.valueFrom.Some? && cluster.valueFrom(e).Found?)
  }

  predicate NoneHeld(cluster: Cluster, env: seq<EnvVar>) {
    forall k | 0 <= k < |env| :: !HoldsTemplate(cluster, env[k])
  }

  predicate LookupFails(cluster: Cluster, env: seq<EnvVar>) {
    exists k :: 0 <= k < |env| && env[k].valueFrom.Some? && cluster.valueFrom(env[k]).Fault?
  }

  lemma {:induction false} FromEnvMeaning(cluster: Cluster, env: seq<EnvVar>)
    ensures FromEnv(cluster, env).None? <==> LookupFails(cluster, env)
    ensures FromEnv(cluster, env).Some? ==> (FromEnv(cluster, env).value == [] <==> NoneHeld(cluster, env))
    decreases |env|
  {
    if env != [] {
      var front, last := env[..|env| - 1], env[|env| - 1];
      FromEnvMeaning(cluster, front);
      assert env == front + [last];
      OneMoreEntry(cluster, front, last);
      var before, here := FromEnv(cluster, front), FromEntry(cluster, last);
      assert before.Some? && here.Some? ==> |before.value + here.value| == |before.value| + |here.value|;
    }
  }

  lemma OneMoreEntry(cluster: Cluster, front: seq<EnvVar>, last: EnvVar)
    ensures LookupFails(cluster, front + [last]) <==>
      LookupFails(cluster, front) || (last.valueFrom.Some? && cluster.valueFrom(last).Fault?)
    ensures NoneHeld(cluster, front + [last]) <==> NoneHeld(cluster, front) && !HoldsTemplate(cluster, last)
  {
    var env := front + [last];
    if k :| 0 <= k < |front| && front[k].valueFrom.Some? && cluster.valueFrom(front[k]).Fault? {
      assert env[k] == front[k];
    }
    assert env[|front|] == last;
    assert forall k | 0 <= k < |front| :: env[k] == front[k];
  }

  // The container is to be rewritten: it is not to be skipped, and there is something to inject.
  predicate Concerned(cluster: Cluster, cfg: Config, c: Container) {
    && c.name !in cfg.skip
    && (|| cfg.envFromPath != ""
        || (c.envFrom != [] && cluster.envFrom(c.envFrom) != Some([]))
        || !NoneHeld(cluster, c.env))
  }

  /** A container fails exactly if one of its references cannot be looked up, or it is to be rewritten
      and its image, which is asked for where there is no command, cannot; it is rewritten exactly if
      it is to be and does not fail. */
  lemma DecisionExactly(cluster: Cluster, cfg: Config, otherTls: bool, c: Container)
    ensures Fails(cluster, cfg, otherTls, c) <==>
      || (c.envFrom != [] && cluster.envFrom(c.envFrom).None?)
      || LookupFails(cluster, c.env)
      || (Concerned(cluster, cfg, c) && c.command == [] && cluster.image(c.image).None?)
    ensures Changes(cluster, cfg, otherTls, c) <==> Concerned(cluster, cfg, c) && !Fails(cluster, cfg, otherTls, c)
  {
    FromEnvMeaning(cluster, c.env);
    hide Rewrite, NoneHeld, LookupFails, FromEnv;
  }

  // ----- environment -----

  // The last entry of a name is the one that counts.
  function Effective(env: seq<EnvVar>, name: string): Option<EnvVar>
    decreases |env|
  {
    if env == [] then None
    else if env[|env| - 1].name == name then Some(env[|env| - 1])
    else Effective(env[..|env| - 1], name)
  }

  // The later of two settings.
  function Over(base: Option<EnvVar>, later: Option<EnvVar>): Option<EnvVar> {
    if later.Some? then later else base
  }

  lemma {:induction false} EffectiveOfSum(a: seq<EnvVar>, b: seq<EnvVar>, name: string)
    ensures Effective(a + b, name) == Over(Effective(a, name), Effective(b, name))
    decreases |b|
  {
    if b == [] {
      assert a + b == a;
    } else {
      assert (a + b)[..|a + b| - 1] == a + b[..|b| - 1];
      EffectiveOfSum(a, b[..|b| - 1], name);
    }
  }

  lemma {:induction false} EffectiveExists(env: seq<EnvVar>, name: string)
    ensures Effective(env, name).Some? <==> HasVar(env, name)
    decreases |env|
  {
    if env != [] {
      var front := env[..|env| - 1];
      EffectiveExists(front, name);
      if k :| 0 <= k < |front| && front[k].name == name { assert env[k].name == name; }
      if k :| 0 <= k < |env| && env[k].name == name { assert k < |front| ==> front[k].name == name; }
      assert env[|env| - 1].name == name ==> HasVar(env, name);
    }
  }

  /** In a rewritten container the original entries come first, in order; a name keeps its meaning
      unless the webhook sets it, and then it has the webhook's value. */
  lemma EnvMeaning(cluster: Cluster, cfg: Config, otherTls: bool, c: Container, name: string)
    requires Changes(cluster, cfg, otherTls, c)
    ensures var added := Added(cfg, otherTls, HasVar(c.env, "VAULT_LOG_LEVEL"));
      && c.env <= Result(cluster, cfg, otherTls, c).env
      && Effective(Result(cluster, cfg, otherTls, c).env, name) ==
           if HasVar(added, name) then Effective(added, name) else Effective(c.env, name)
  {
    var added := Added(cfg, otherTls, HasVar(c.env, "VAULT_LOG_LEVEL"));
    EffectiveOfSum(c.env, added, name);
    EffectiveExists(added, name);
  }

  // ----- what the webhook sets -----

  // One of the variables of the webhook, and whether it is set.
  datatype Setting = Setting(on: bool, entry: EnvVar)

  function Settings(cfg: Config, otherTls: bool, logLevelSet: bool): seq<Setting> {
    [Setting(true, Plain("VAULT_ADDR", cfg.addr)),
     Setting(true, Plain("VAULT_SKIP_VERIFY", FormatBool(cfg.skipVerify))),
     Setting(true, Plain("VAULT_AUTH_METHOD", cfg.authMethod)),
     Setting(true, Plain("VAULT_PATH", cfg.path)),
     Setting(true, Plain("VAULT_ROLE", cfg.role)),
     Setting(true, Plain("VAULT_IGNORE_MISSING_SECRETS", cfg.ignoreMissing)),
     Setting(true, Plain("VAULT_ENV_PASSTHROUGH", cfg.passThrough)),
     Setting(true, Plain("VAULT_JSON_LOG", cfg.jsonLog)),
     Setting(true, Plain("VAULT_CLIENT_TIMEOUT", cfg.clientTimeout)),
     Setting(cfg.tokenPath != "", Plain("VAULT_JWT_FILE", cfg.tokenPath)),
     Setting(cfg.token != "", Plain("VAULT_TOKEN", cfg.token)),
     Setting(!logLevelSet && cfg.logLevel != "", Plain("VAULT_LOG_LEVEL", cfg.logLevel)),
     Setting(cfg.namespace != "", Plain("VAULT_NAMESPACE", cfg.namespace)),
     Setting(cfg.tlsSecret != "", Plain("VAULT_CACERT", TlsPath(otherTls) + "ca.crt")),
     Setting(cfg.tlsSecret == "" && cfg.caCertBytes != "", Plain("VAULT_CACERT_BYTES", cfg.caCertBytes)),
     Setting(cfg.envFromPath != "", Plain("VAULT_ENV_FROM_PATH", cfg.envFromPath)),
     Setting(cfg.restart == "watch-for-lease" || cfg.restart == "watch-for-data",
             Plain("VAULT_ENV_RESTART_ON_SECRET_CHANGE", cfg.restart)),
     Setting(cfg.restart == "watch-for-lease", Plain("VAULT_ENV_DAEMON", "true")),
     Setting(cfg.restart == "watch-for-data", Plain("VAULT_ENV_SECRET_POLL_INTERVAL", cfg.pollInterval))]
  }

  // Where a name stands in this list, told by its length and a letter.
  function Row(name: string): nat {
    match |name|
    case 10 => if name[6] == 'A' then 0 else if name[6] == 'P' then 3 else 4
    case 11 => 10
    case 12 => 13
    case 14 => if name[7] == 'S' then 7 else 9
    case 15 => if name[6] == 'L' then 11 else 12
    case 16 => 17
    case 17 => if name[6] == 'S' then 1 else 2
    case 18 => 14
    case 19 => 15
    case 20 => 8
    case 21 => 6
    case 28 => 5
    case 30 => 18
    case 34 => 16
    case _ => 19
  }

  // So no name stands there twice.
  lemma RowsOfSettings(cfg: Config, otherTls: bool, logLevelSet: bool)
    ensures var settings := Settings(cfg, otherTls, logLevelSet);
      forall i | 0 <= i < |settings| :: Row(settings[i].entry.name) == i
  {
  }

  predicate Listed(settings: seq<Setting>, x: EnvVar) {
    exists i :: 0 <= i < |settings| && settings[i] == Setting(true, x)
  }

  lemma AlwaysListed(cfg: Config, otherTls: bool, logLevelSet: bool, x: EnvVar)
    requires x in Always(cfg)
    ensures Listed(Settings(cfg, otherTls, logLevelSet), x)
  {
    var i :| 0 <= i < 9 && Always(cfg)[i] == x;
    assert Settings(cfg, otherTls, logLevelSet)[i] == Setting(true, x);
  }

  // Likewise a single entry.
  lemma EntryListed(cfg: Config, otherTls: bool, logLevelSet: bool, i: nat, on: bool, entry: EnvVar, x: EnvVar)
    requires x in When(on, [entry])
    requires var settings := Settings(cfg, otherTls, logLevelSet); i < |settings| && settings[i] == Setting(on, entry)
    ensures Listed(Settings(cfg, otherTls, logLevelSet), x)
  {
    hide Settings;
    assert Settings(cfg, otherTls, logLevelSet)[i] == Setting(true, x);
  }

  lemma ForTlsListed(cfg: Config, otherTls: bool, logLevelSet: bool, x: EnvVar)
    requires x in ForTls(cfg, otherTls)
    ensures Listed(Settings(cfg, otherTls, logLevelSet), x)
  {
    var i := if cfg.tlsSecret != "" then 13 else 14;
    assert Settings(cfg, otherTls, logLevelSet)[i] == Setting(true, x);
  }

  lemma ForRestartListed(cfg: Config, otherTls: bool, logLevelSet: bool, x: EnvVar)
    requires x in ForRestart(cfg)
    ensures Listed(Settings(cfg, otherTls, logLevelSet), x)
  {
    var settings := Settings(cfg, otherTls, logLevelSet);
    assert settings[16] == Setting(true, x) || settings[17] == Setting(true, x) || settings[18] == Setting(true, x);
  }

  lemma WhenListed(cfg: Config, otherTls: bool, logLevelSet: bool, x: EnvVar)
    requires || x in When(cfg.tokenPath != "", [Plain("VAULT_JWT_FILE", cfg.tokenPath)])
             || x in When(cfg.token != "", [Plain("VAULT_TOKEN", cfg.token)])
             || x in When(!logLevelSet && cfg.logLevel != "", [Plain("VAULT_LOG_LEVEL", cfg.logLevel)])
             || x in When(cfg.namespace != "", [Plain("VAULT_NAMESPACE", cfg.namespace)])
             || x in When(cfg.envFromPath != "", [Plain("VAULT_ENV_FROM_PATH", cfg.envFromPath)])
    ensures Listed(Settings(cfg, otherTls, logLevelSet), x)
  {
    hide When, Listed;
    if x in When(cfg.tokenPath != "", [Plain("VAULT_JWT_FILE", cfg.tokenPath)]) {
      EntryListed(cfg, otherTls, logLevelSet, 9, cfg.tokenPath != "", Plain("VAULT_JWT_FILE", cfg.tokenPath), x);
    } else if x in When(cfg.token != "", [Plain("VAULT_TOKEN", cfg.token)]) {
      EntryListed(cfg, otherTls, logLevelSet, 10, cfg.token != "", Plain("VAULT_TOKEN", cfg.token), x);
    } else if x in When(!logLevelSet && cfg.logLevel != "", [Plain("VAULT_LOG_LEVEL", cfg.logLevel)]) {
      EntryListed(cfg, otherTls, logLevelSet, 11, !logLevelSet && cfg.logLevel != "",
                  Plain("VAULT_LOG_LEVEL", cfg.logLevel), x);
    } else if x in When(cfg.namespace != "", [Plain("VAULT_NAMESPACE", cfg.namespace)]) {
      EntryListed(cfg, otherTls, logLevelSet, 12, cfg.namespace != "", Plain("VAULT_NAMESPACE", cfg.namespace), x);
    } else {
      EntryListed(cfg, otherTls, logLevelSet, 15, cfg.envFromPath != "", Plain("VAULT_ENV_FROM_PATH", cfg.envFromPath),
                  x);
    }
  }

  // What is added is a setting that is on.
  lemma AddedListed(cfg: Config, otherTls: bool, logLevelSet: bool, x: EnvVar)
    requires x in Added(cfg, otherTls, logLevelSet)
    ensures Listed(Settings(cfg, otherTls, logLevelSet), x)
  {
    hide Settings, Always, ForTls, ForRestart, When, Listed;
    if x in Always(cfg) {
      AlwaysListed(cfg, otherTls, logLevelSet, x);
    } else if x in ForTls(cfg, otherTls) {
      ForTlsListed(cfg, otherTls, logLevelSet, x);
    } else if x in ForRestart(cfg) {
      ForRestartListed(cfg, otherTls, logLevelSet, x);
    } else {
      WhenListed(cfg, otherTls, logLevelSet, x);
    }
  }

  // A setting that is on is added.
  lemma ListedAdded(cfg: Config, otherTls: bool, logLevelSet: bool, i: nat)
    requires var settings := Settings(cfg, otherTls, logLevelSet); i < |settings| && settings[i].on
    ensures Settings(cfg, otherTls, logLevelSet)[i].entry in Added(cfg, otherTls, logLevelSet)
  {
    var entry := Settings(cfg, otherTls, logLevelSet)[i].entry;
    if i < 9 {
      assert entry == Always(cfg)[i];
    } else {
      hide Always;
    }
  }

  lemma {:induction false} EffectiveIsEntry(env: seq<EnvVar>, name: string)
    ensures Effective(env, name).Some? ==> Effective(env, name).value in env && Effective(env, name).value.name == name
    decreases |env|
  {
    if env != [] { EffectiveIsEntry(env[..|env| - 1], name); }
  }

  // In a rewritten container a setting that is on has its value, any other name what it had.
  lemma SettingMeaning(cluster: Cluster, cfg: Config, otherTls: bool, c: Container, i: nat)
    requires Changes(cluster, cfg, otherTls, c)
    requires i < |Settings(cfg, otherTls, HasVar(c.env, "VAULT_LOG_LEVEL"))|
    ensures var setting := Settings(cfg, otherTls, HasVar(c.env, "VAULT_LOG_LEVEL"))[i];
      Effective(Result(cluster, cfg, otherTls, c).env, setting.entry.name) ==
        if setting.on then Some(setting.entry) else Effective(c.env, setting.entry.name)
  {
    var logLevelSet := HasVar(c.env, "VAULT_LOG_LEVEL");
    var settings, added := Settings(cfg, otherTls, logLevelSet), Added(cfg, otherTls, logLevelSet);
    var name := settings[i].entry.name;
    RowsOfSettings(cfg, otherTls, logLevelSet);
    if settings[i].on { ListedAdded(cfg, otherTls, logLevelSet, i); }
    forall x | x in added ensures Listed(settings, x) { AddedListed(cfg, otherTls, logLevelSet, x); }
    hide Settings, Added, Row, Decide;
    EnvMeaning(cluster, cfg, otherTls, c, name);
    EffectiveExists(added, name);
    EffectiveIsEntry(added, name);
    if settings[i].on {
      var k :| 0 <= k < |added| && added[k] == settings[i].entry;
      assert HasVar(added, name) by { assert added[k].name == name; }
    }
  }

  // A container passes this value under the name, if the setting is on, and else what it did.
  predicate Passes(was: seq<EnvVar>, now: seq<EnvVar>, name: string, on: bool, value: string) {
    Effective(now, name) == if on then Some(Plain(name, value)) else Effective(was, name)
  }

  lemma PassesSetting(cluster: Cluster, cfg: Config, otherTls: bool, c: Container, i: nat, name: string, on: bool,
                      value: string)
    requires Changes(cluster, cfg, otherTls, c)
    requires var settings := Settings(cfg, otherTls, HasVar(c.env, "VAULT_LOG_LEVEL"));
      i < |settings| && settings[i] == Setting(on, Plain(name, value))
    ensures Passes(c.env, Result(cluster, cfg, otherTls, c).env, name, on, value)
  {
    SettingMeaning(cluster, cfg, otherTls, c, i);
  }

  /** How a rewritten container logs in: where, by which method, on which path and under which role. */
  lemma LoginSettings(cluster: Cluster, cfg: Config, otherTls: bool, c: Container)
    requires Changes(cluster, cfg, otherTls, c)
    ensures var now := Result(cluster, cfg, otherTls, c).env;
      && Effective(now, "VAULT_ADDR") == Some(Plain("VAULT_ADDR", cfg.addr))
      && Effective(now, "VAULT_AUTH_METHOD") == Some(Plain("VAULT_AUTH_METHOD", cfg.authMethod))
      && Effective(now, "VAULT_PATH") == Some(Plain("VAULT_PATH", cfg.path))
      && Effective(now, "VAULT_ROLE") == Some(Plain("VAULT_ROLE", cfg.role))
  {
    hide Effective, Decide, Row;
    PassesSetting(cluster, cfg, otherTls, c, 0, "VAULT_ADDR", true, cfg.addr);
    PassesSetting(cluster, cfg, otherTls, c, 2, "VAULT_AUTH_METHOD", true, cfg.authMethod);
    PassesSetting(cluster, cfg, otherTls, c, 3, "VAULT_PATH", true, cfg.path);
    PassesSetting(cluster, cfg, otherTls, c, 4, "VAULT_ROLE", true, cfg.role);
  }

  /** With which identity, where one is configured. */
  lemma IdentitySettings(cluster: Cluster, cfg: Config, otherTls: bool, c: Container)
    requires Changes(cluster, cfg, otherTls, c)
    ensures var now := Result(cluster, cfg, otherTls, c).env;
      && Passes(c.env, now, "VAULT_JWT_FILE", cfg.tokenPath != "", cfg.tokenPath)
      && Passes(c.env, now, "VAULT_TOKEN", cfg.token != "", cfg.token)
      && Passes(c.env, now, "VAULT_NAMESPACE", cfg.namespace != "", cfg.namespace)
  {
    hide Effective, Decide, Row;
    PassesSetting(cluster, cfg, otherTls, c, 9, "VAULT_JWT_FILE", cfg.tokenPath != "", cfg.tokenPath);
    PassesSetting(cluster, cfg, otherTls, c, 10, "VAULT_TOKEN", cfg.token != "", cfg.token);
    PassesSetting(cluster, cfg, otherTls, c, 12, "VAULT_NAMESPACE", cfg.namespace != "", cfg.namespace);
  }

  /** Whom it trusts, and how long it waits. */
  lemma ConnectionSettings(cluster: Cluster, cfg: Config, otherTls: bool, c: Container)
    requires Changes(cluster, cfg, otherTls, c)
    ensures var now := Result(cluster, cfg, otherTls, c).env;
      && Effective(now, "VAULT_SKIP_VERIFY")
         == Some(Plain("VAULT_SKIP_VERIFY", if cfg.skipVerify then "true" else "false"))
      && Effective(now, "VAULT_CLIENT_TIMEOUT") == Some(Plain("VAULT_CLIENT_TIMEOUT", cfg.clientTimeout))
      && Passes(c.env, now, "VAULT_CACERT", cfg.tlsSecret != "",
                if otherTls then "/stronghold-env/tls/ca.crt" else "/vault/tls/ca.crt")
      && Passes(c.env, now, "VAULT_CACERT_BYTES", cfg.tlsSecret == "" && cfg.caCertBytes != "", cfg.caCertBytes)
  {
    CertificatePath(otherTls);
    hide Effective, Decide, Row;
    PassesSetting(cluster, cfg, otherTls, c, 1, "VAULT_SKIP_VERIFY", true, FormatBool(cfg.skipVerify));
    PassesSetting(cluster, cfg, otherTls, c, 8, "VAULT_CLIENT_TIMEOUT", true, cfg.clientTimeout);
    PassesSetting(cluster, cfg, otherTls, c, 13, "VAULT_CACERT", cfg.tlsSecret != "", TlsPath(otherTls) + "ca.crt");
    PassesSetting(cluster, cfg, otherTls, c, 14, "VAULT_CACERT_BYTES", cfg.tlsSecret == "" && cfg.caCertBytes != "",
                  cfg.caCertBytes);
  }

  lemma CertificatePath(otherTls: bool)
    ensures TlsPath(otherTls) + "ca.crt" == if otherTls then "/stronghold-env/tls/ca.crt" else "/vault/tls/ca.crt"
  {
    assert "/stronghold-env/tls/" + "ca.crt" == "/stronghold-env/tls/ca.crt";
    assert "/vault/tls/" + "ca.crt" == "/vault/tls/ca.crt";
  }

  /** What the injector reports and lets through; the container's own log level wins over the
      configured one. */
  lemma OutputSettings(cluster: Cluster, cfg: Config, otherTls: bool, c: Container)
    requires Changes(cluster, cfg, otherTls, c)
    ensures var now := Result(cluster, cfg, otherTls, c).env;
      && Effective(now, "VAULT_IGNORE_MISSING_SECRETS")
         == Some(Plain("VAULT_IGNORE_MISSING_SECRETS", cfg.ignoreMissing))
      && Effective(now, "VAULT_ENV_PASSTHROUGH") == Some(Plain("VAULT_ENV_PASSTHROUGH", cfg.passThrough))
      && Effective(now, "VAULT_JSON_LOG") == Some(Plain("VAULT_JSON_LOG", cfg.jsonLog))
      && Passes(c.env, now, "VAULT_LOG_LEVEL", !HasVar(c.env, "VAULT_LOG_LEVEL") && cfg.logLevel != "", cfg.logLevel)
  {
    hide Effective, Decide, Row;
    PassesSetting(cluster, cfg, otherTls, c, 5, "VAULT_IGNORE_MISSING_SECRETS", true, cfg.ignoreMissing);
    PassesSetting(cluster, cfg, otherTls, c, 6, "VAULT_ENV_PASSTHROUGH", true, cfg.passThrough);
    PassesSetting(cluster, cfg, otherTls, c, 7, "VAULT_JSON_LOG", true, cfg.jsonLog);
    PassesSetting(cluster, cfg, otherTls, c, 11, "VAULT_LOG_LEVEL",
                  !HasVar(c.env, "VAULT_LOG_LEVEL") && cfg.logLevel != "", cfg.logLevel);
  }

  /** What it watches: a configured restart mode wins over the container's, and comes with the daemon
      or the poll interval that it needs. */
  lemma WatchSettings(cluster: Cluster, cfg: Config, otherTls: bool, c: Container)
    requires Changes(cluster, cfg, otherTls, c)
    ensures var now := Result(cluster, cfg, otherTls, c).env;
      && Passes(c.env, now, "VAULT_ENV_FROM_PATH", cfg.envFromPath != "", cfg.envFromPath)
      && Passes(c.env, now, "VAULT_ENV_RESTART_ON_SECRET_CHANGE",
                cfg.restart == "watch-for-lease" || cfg.restart == "watch-for-data", cfg.restart)
      && Passes(c.env, now, "VAULT_ENV_DAEMON", cfg.restart == "watch-for-lease", "true")
      && Passes(c.env, now, "VAULT_ENV_SECRET_POLL_INTERVAL", cfg.restart == "watch-for-data", cfg.pollInterval)
  {
    hide Effective, Decide, Row;
    PassesSetting(cluster, cfg, otherTls, c, 15, "VAULT_ENV_FROM_PATH", cfg.envFromPath != "", cfg.envFromPath);
    PassesSetting(cluster, cfg, otherTls, c, 16, "VAULT_ENV_RESTART_ON_SECRET_CHANGE",
                  cfg.restart == "watch-for-lease" || cfg.restart == "watch-for-data", cfg.restart);
    PassesSetting(cluster, cfg, otherTls, c, 17, "VAULT_ENV_DAEMON", cfg.restart == "watch-for-lease", "true");
    PassesSetting(cluster, cfg, otherTls, c, 18, "VAULT_ENV_SECRET_POLL_INTERVAL", cfg.restart == "watch-for-data",
                  cfg.pollInterval);
  }

  function SettingNames(): set<string> {
    {"VAULT_ADDR", "VAULT_SKIP_VERIFY", "VAULT_AUTH_METHOD", "VAULT_PATH", "VAULT_ROLE",
     "VAULT_IGNORE_MISSING_SECRETS", "VAULT_ENV_PASSTHROUGH", "VAULT_JSON_LOG", "VAULT_CLIENT_TIMEOUT",
     "VAULT_JWT_FILE", "VAULT_TOKEN", "VAULT_LOG_LEVEL", "VAULT_NAMESPACE", "VAULT_CACERT", "VAULT_CACERT_BYTES",
     "VAULT_ENV_FROM_PATH", "VAULT_ENV_RESTART_ON_SECRET_CHANGE", "VAULT_ENV_DAEMON",
     "VAULT_ENV_SECRET_POLL_INTERVAL"}
  }

  lemma NamesOfSettings(cfg: Config, otherTls: bool, logLevelSet: bool)
    ensures var settings := Settings(cfg, otherTls, logLevelSet);
      forall i | 0 <= i < |settings| :: settings[i].entry.name in SettingNames()
  {
  }

  lemma SettingsInTable(name: string)
    requires name in SettingNames() && name != "VAULT_CACERT_BYTES"
    ensures name in Startup.SanitizeTable
  {
  }

  lemma BytesNotInTable()
    ensures "VAULT_CACERT_BYTES" !in Startup.SanitizeTable
  {
    var name := "VAULT_CACERT_BYTES";
    assert |name| == 18 && name[6] == 'C' && name[7] == 'A';
    assert "VAULT_CLUSTER_ADDR"[7] == 'L' && "VAULT_CLI_NO_COLOR"[7] == 'L' && "VAULT_REVOKE_TOKEN"[6] == 'R';
  }

  /** What the webhook sets is for the injector: without a login it is passed on to the process only if
      the pass-through list names it; but for the bytes of the certificate, which are passed on. */
  lemma SettingsHeldBack(passthrough: string, name: string)
    requires name in SettingNames()
    ensures Startup.Allowed(Startup.SanitizeTable - Startup.Passed(passthrough, false), false, name)
      <==> Startup.ListedIn(passthrough, name) || name == "VAULT_CACERT_BYTES"
  {
    if name == "VAULT_CACERT_BYTES" { BytesNotInTable(); } else { SettingsInTable(name); }
    SettingNotEmpty(name);
    Startup.AllowedExactly(passthrough, false, name);
    hide Startup.SanitizeTable, SettingNames, Startup.ListedIn, Startup.Passed;
  }

  lemma SettingNotEmpty(name: string)
    requires name in SettingNames()
    ensures name != ""
  {
  }

  /** Every other variable keeps its meaning. */
  lemma OthersKept(cluster: Cluster, cfg: Config, otherTls: bool, c: Container, name: string)
    requires Changes(cluster, cfg, otherTls, c) && name !in SettingNames()
    ensures Effective(Result(cluster, cfg, otherTls, c).env, name) == Effective(c.env, name)
  {
    var logLevelSet := HasVar(c.env, "VAULT_LOG_LEVEL");
    var settings, added := Settings(cfg, otherTls, logLevelSet), Added(cfg, otherTls, logLevelSet);
    NamesOfSettings(cfg, otherTls, logLevelSet);
    forall x | x in added ensures Listed(settings, x) { AddedListed(cfg, otherTls, logLevelSet, x); }
    hide Settings, Added, SettingNames, Decide;
    EnvMeaning(cluster, cfg, otherTls, c, name);
    EffectiveExists(added, name);
    EffectiveIsEntry(added, name);
  }

  // ----- running it twice -----

  /** A run without a failure is idempotent: either it added the volume that marks the pod, or it
      found nothing to rewrite, and will again. */
  lemma Idempotent(cluster: Cluster, cfg: Config, pod: Spec)
    requires !PodFails(cluster, cfg, pod)
    ensures !PodFails(cluster, cfg, Mutated(cluster, cfg, pod))
    ensures Mutated(cluster, cfg, Mutated(cluster, cfg, pod)) == Mutated(cluster, cfg, pod)
  {
    hide Decide;
    if PodChanges(cluster, cfg, pod) {
      var volumes := Mutated(cluster, cfg, pod).volumes;
      assert volumes[|pod.volumes|].name == MARKER;
    }
  }

  // ----- volumes -----

  predicate Distinct(volumes: seq<Volume>) {
    forall i, j :: 0 <= i < j < |volumes| ==> volumes[i].name != volumes[j].name
  }

  lemma HasVolumeInSum(a: seq<Volume>, b: seq<Volume>, name: string)
    ensures HasVolume(a + b, name) <==> HasVolume(a, name) || HasVolume(b, name)
  {
    if k :| 0 <= k < |a| && a[k].name == name { assert (a + b)[k].name == name; }
    if k :| 0 <= k < |b| && b[k].name == name { assert (a + b)[|a| + k].name == name; }
    if k :| 0 <= k < |a + b| && (a + b)[k].name == name {
      assert if k < |a| then a[k].name == name else b[k - |a|].name == name;
    }
  }

  predicate Backed(volumes: seq<Volume>, mounts: seq<Mount>) {
    forall m | m in mounts :: HasVolume(volumes, m.name)
  }

  lemma AddedMountsBacked(volumes: seq<Volume>, cfg: Config)
    ensures Backed(volumes + NewVolumes(volumes, cfg), AddedMounts(cfg, HasVolume(volumes, TLS)))
  {
    var more := NewVolumes(volumes, cfg);
    assert more[0].name == MARKER;
    HasVolumeInSum(volumes, more, MARKER);
    HasVolumeInSum(volumes, more, TlsName(HasVolume(volumes, TLS)));
    assert cfg.tlsSecret != "" ==> more[1].name == TlsName(HasVolume(volumes, TLS));
  }

  /** Every mount of a container of the rewritten pod is one the container had, or has its volume in
      the pod. */
  lemma MountsBacked(cluster: Cluster, cfg: Config, pod: Spec, k: nat)
    requires PodChanges(cluster, cfg, pod) && k < |pod.containers|
    ensures var after := Mutated(cluster, cfg, pod);
      && |after.containers| == |pod.containers|
      && pod.containers[k].mounts <= after.containers[k].mounts
      && Backed(after.volumes, after.containers[k].mounts[|pod.containers[k].mounts|..])
  {
    MountsOfResult(cluster, cfg, pod.volumes, pod.containers[k]);
  }

  lemma MountsOfResult(cluster: Cluster, cfg: Config, volumes: seq<Volume>, c: Container)
    ensures var r := Result(cluster, cfg, HasVolume(volumes, TLS), c);
      c.mounts <= r.mounts && Backed(volumes + NewVolumes(volumes, cfg), r.mounts[|c.mounts|..])
  {
    var added := AddedMounts(cfg, HasVolume(volumes, TLS));
    AddedMountsBacked(volumes, cfg);
    assert (c.mounts + added)[|c.mounts|..] == added;
    assert c.mounts[|c.mounts|..] == [];
  }

  /** The added init container, which every rewritten pod has, mounts only volumes of the pod. */
  lemma AddedContainerBacked(cluster: Cluster, cfg: Config, pod: Spec)
    requires PodChanges(cluster, cfg, pod)
    ensures var after := Mutated(cluster, cfg, pod);
      && |after.initContainers| == |pod.initContainers| + 1
      && after.initContainers[0] == CopyContainer(cfg)
      && Backed(after.volumes, after.initContainers[0].mounts)
  {
    hide Decide;
    AddedMountsBacked(pod.volumes, cfg);
    assert AddedMounts(cfg, HasVolume(pod.volumes, TLS))[0] == Mount(MARKER, "/vault/");
  }

  /** The pod's own init containers come after it, in their order, and likewise keep their mounts. */
  lemma InitMountsBacked(cluster: Cluster, cfg: Config, pod: Spec, k: nat)
    requires PodChanges(cluster, cfg, pod) && k < |pod.initContainers|
    ensures var after := Mutated(cluster, cfg, pod);
      && |after.initContainers| == |pod.initContainers| + 1
      && after.initContainers[k + 1] == Result(cluster, cfg, HasVolume(pod.volumes, TLS), pod.initContainers[k])
      && pod.initContainers[k].mounts <= after.initContainers[k + 1].mounts
      && Backed(after.volumes, after.initContainers[k + 1].mounts[|pod.initContainers[k].mounts|..])
  {
    MountsOfResult(cluster, cfg, pod.volumes, pod.initContainers[k]);
  }

  lemma CertificateSetting(cluster: Cluster, cfg: Config, otherTls: bool, c: Container)
    requires Changes(cluster, cfg, otherTls, c) && cfg.tlsSecret != ""
    ensures Effective(Result(cluster, cfg, otherTls, c).env, "VAULT_CACERT")
      == Some(Plain("VAULT_CACERT", TlsPath(otherTls) + "ca.crt"))
  {
    hide Decide, Effective, Row;
    PassesSetting(cluster, cfg, otherTls, c, 13, "VAULT_CACERT", true, TlsPath(otherTls) + "ca.crt");
  }

  lemma ResultIsRewrite(cluster: Cluster, cfg: Config, otherTls: bool, c: Container) returns (image: ImageConfig)
    requires Changes(cluster, cfg, otherTls, c)
    ensures Result(cluster, cfg, otherTls, c) == Rewrite(cfg, otherTls, c, image)
  {
    image := ImageOf(cluster, c).value;
  }

  /** A rewritten container finds what it is pointed to: the shared volume with the injector is
      mounted where its command looks, and the file named by VAULT_CACERT lies in a mounted volume
      that the pod fills from the configured secret. */
  lemma RewrittenFindsFiles(cluster: Cluster, cfg: Config, volumes: seq<Volume>, c: Container)
    requires Changes(cluster, cfg, HasVolume(volumes, TLS), c)
    ensures var r := Result(cluster, cfg, HasVolume(volumes, TLS), c);
      && r.command == [INJECTOR] && "/vault/" <= INJECTOR && Mount(MARKER, "/vault/") in r.mounts
      && Volume(MARKER, Memory) in volumes + NewVolumes(volumes, cfg)
      && (cfg.tlsSecret != "" ==>
            exists m :: m in r.mounts
              && Volume(m.name, CaCertificateOf(cfg.tlsSecret)) in volumes + NewVolumes(volumes, cfg)
              && Effective(r.env, "VAULT_CACERT") == Some(Plain("VAULT_CACERT", m.path + "ca.crt")))
  {
    var otherTls := HasVolume(volumes, TLS);
    var image := ResultIsRewrite(cluster, cfg, otherTls, c);
    var r := Rewrite(cfg, otherTls, c, image);
    var added := Added(cfg, otherTls, HasVar(c.env, "VAULT_LOG_LEVEL"));
    hide Decide, Added;
    assert AddedMounts(cfg, otherTls)[0] == Mount(MARKER, "/vault/");
    assert NewVolumes(volumes, cfg)[0] == Volume(MARKER, Memory);
    if cfg.tlsSecret != "" {
      var m := Mount(TlsName(otherTls), TlsPath(otherTls));
      assert AddedMounts(cfg, otherTls)[1] == m;
      assert NewVolumes(volumes, cfg)[1] == Volume(m.name, CaCertificateOf(cfg.tlsSecret));
      CertificateSetting(cluster, cfg, otherTls, c);
      assert m in r.mounts && r.env == c.env + added;
    }
  }

  lemma DistinctAppend(volumes: seq<Volume>, v: Volume)
    ensures Distinct(volumes + [v]) <==> Distinct(volumes) && !HasVolume(volumes, v.name)
  {
    var all := volumes + [v];
    if Distinct(all) {
      assert forall i, j :: 0 <= i < j < |volumes| ==> all[i].name == volumes[i].name && all[j].name == volumes[j].name;
      if k :| 0 <= k < |volumes| && volumes[k].name == v.name { assert all[k].name == all[|volumes|].name; }
    }
  }

  lemma DistinctSum(volumes: seq<Volume>, cfg: Config)
    requires !HasVolume(volumes, MARKER)
    ensures Distinct(volumes + NewVolumes(volumes, cfg)) <==>
      Distinct(volumes) && !(cfg.tlsSecret != "" && HasVolume(volumes, TLS) && HasVolume(volumes, OTHER_TLS))
  {
    var marker := Volume(MARKER, Memory);
    DistinctAppend(volumes, marker);
    if cfg.tlsSecret == "" {
      assert NewVolumes(volumes, cfg) == [marker];
    } else {
      var tls := Volume(TlsName(HasVolume(volumes, TLS)), CaCertificateOf(cfg.tlsSecret));
      assert volumes + NewVolumes(volumes, cfg) == volumes + [marker] + [tls];
      DistinctAppend(volumes + [marker], tls);
      HasVolumeInSum(volumes, [marker], tls.name);
      assert |MARKER| == 14 && |TLS| == 9 && |OTHER_TLS| == 18;
      assert !HasVolume([marker], tls.name) by { assert [marker][0].name != tls.name; }
    }
  }

  /** Volume names stay distinct exactly when they were, and TLS needs no third name. */
  lemma VolumesDistinctExactly(cluster: Cluster, cfg: Config, pod: Spec)
    requires PodChanges(cluster, cfg, pod)
    ensures Distinct(Mutated(cluster, cfg, pod).volumes) <==>
      Distinct(pod.volumes)
      && !(cfg.tlsSecret != "" && HasVolume(pod.volumes, TLS) && HasVolume(pod.volumes, OTHER_TLS))
  {
    DistinctSum(pod.volumes, cfg);
  }
}
