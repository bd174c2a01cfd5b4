# Secrets store integration: a verified model

A Dafny model of the parts of the secrets store integration that decide what a workload gets to see
and when it is restarted. `dafny verify dfyconfig.toml` checks all of it.

* **Reference resolution** (`Strings`, `Pattern`, `Substitution`, `Vault`, `Resolver`, `Runs`,
  `References`, `Writes`, `Injector`). An environment value may hold references `${secrets-store:path#key#version}`, found by
  the pattern `\${([>]{0,2}secrets-store:.*?#*}?)}`. `Pattern` gives that pattern its backtracking
  meaning and proves a linear scanner equal to it. `Substitution` says what a sequence of
  `strings.ReplaceAll` calls does to the value. `Resolver` and `Runs` treat the mutual recursion, the
  cache and the order of map iteration against a plain definition without any of them (`Direct`).
  `Writes` decides from the text alone when resolving writes to the store. `References` says what a
  reference written out comes to: which place, which version, which part of the reply.
  `Injector` is the imperative form: a class with the cache and methods with the loops of the source,
  each proved equal to the functions that the theorems are about.
* **Startup, polling and the digest** (`Digest`, `Watch`, `Startup`). The baseline taken at startup,
  the re-resolution at every tick and the comparison of digests. The main result is an equivalence:
  while the store answers as it did, the process is left alone if and only if no update-style
  variable is also a key delivered by `VAULT_ENV_FROM_PATH`.
* **The supervised process** (`Supervisor`). Watcher, lease renewers, signal forwarder, child and main
  as a step relation around a channel with room for one signal. An inductive invariant covers all
  interleavings; the theorems are about every reachable state or every continuation of a run.
* **The client and its token watcher** (`TokenClient`). A class with construction, re-login and close,
  proved against functions on a state with the history of its calls; the lemmas are about every
  sequence of operations.
* **Pod mutation** (`PodMutation`). The containers of a pod are rewritten in place, in arrays; the
  lemmas say what the rewritten pod runs, mounts and passes in its environment.
* **From a SecretsStoreImport to mounted files** (`SecretImport`). Rendering, reconciliation with
  other writers acting between any two calls, and the files that the CSI driver writes.

Everything outside the program is a parameter: the secret store is a record of functions whose reads
and writes may depend on all writes issued before (`Vault.World`), a fixed store is a function of path
and version (`Vault.Reader`), the cluster, the registry and the encoders are records of functions.
A string is a sequence of bytes, one `char` each.

## Hypotheses

They are `requires` clauses, and the most important ones are these.

* Splicing is simultaneous substitution for a clean template (`CleanTemplate`: nothing in its literal
  text can become the beginning of a reference, and no match holds another one), for values in which no
  later match begins (`CleanValues`), and if no match is an earlier match followed by `}`. The condition
  on the order (`SplicingOrderExact`) and the one on a value (`SplicingValueExact`) are exact;
  `ResolvedTextIsReplacedAgain` shows a failure for any two references side by side.
* The cache agrees with direct reads of the places (path and argument) that references look up, if these
  answer the same throughout the run: `Serves` for a run that only reads, `Steady` for one with writes,
  which asks it for all logs that extend the first one by writes of this environment. Nothing is asked
  of other places.
* A watched reference shares no cache key with an update and hides none (`Watch.Separated`).
  `Writes.SharedKeyExactly` shows what happens otherwise.
* Startup and poll are compared while the watched places and the token answer the same
  (`SameAnswers`), and digests without a collision between the two maps at hand, with lengths below 2^64.
* Whether a poll can write is settled without any of these, by the text of the templates
  (`Writes.CanWrite`), by which payloads parse and by whether missing secrets are ignored. The guard of the
  source looks at top-level matches only.
* That a signal of the watcher which reached the process leads to the restart status is stated for
  waits that report the end; a wait that fails by itself (`WaitReturns(true)`) leaves the status -1.
* YAML and JSON printers are inverted by their parsers (`SecretImport.Faithful`).

## Where code and comments differ

The code is modelled.

* The comments on the login case speak of the value `vault:login`. The resolver tests the name
  `VAULT_TOKEN` and the path `login` after the prefix `secrets-store:`; the literal `vault:login` goes
  through unchanged (images/env-injector/injector.go:101-108, images/env-injector/main.go:336-353).
* The comment on the baseline says that both sides of the comparison cover the same set of names. They
  do not when `VAULT_ENV_FROM_PATH` delivers the name of an update-style variable: the name is removed
  from the baseline only, and every poll then differs (images/env-injector/main.go:425-446,
  `Watch.UnchangedStoreExactly`).
* The comment on `isUpdateReference` promises that updates are never polled; nested ones are
  (images/env-injector/injector.go:303-318, `Writes.UpdateGuardExact`, `Runs.NestedUpdateEscapes`).
* The comment on the pod volumes explains why `vault-tls` may be taken. When `stronghold-env-tls` is
  taken too, the volume names collide (images/vault-secrets-webhook/pkg/webhook/pod.go:402-411,
  `PodMutation.VolumesDistinctExactly`).

## Model

| member | source | states |
|---|---|---|
| Strings.SplitNHead | images/env-injector/injector.go:110-115 | the path cut off at the first `#` holds none, and a single part means that there was none |
| Strings.SplitNRoundTrip | images/env-injector/main.go:380-383 | a name without the separator, joined to any value, splits back into the two |
| Strings.SplitMeaning | images/env-injector/injector.go:181 | the parts of a split hold no separator and joined give the string |
| Strings.SplitNMeaning | images/env-injector/injector.go:110 | so for a split into at most n parts, of which only the last may hold a separator, and only if there are n |
| Strings.TrimSpaceMeaning | images/env-injector/main.go:357 | trimming takes blanks from both ends, and all of them |
| Pattern.MatchesAgree | images/env-injector/injector.go:62 | at every index the scanner's match ends where the pattern's most preferred match ends, and there is one for both or for neither |
| Pattern.ScannerRefinesPattern | images/env-injector/injector.go:324-326 | the scanner's spans, and no others, are the non-overlapping leftmost-first matches of the pattern, for every string |
| Substitution.RefPrefix | images/env-injector/injector.go:62 | of two match texts one is a prefix of the other only if it is equal or is followed by one closing brace |
| Substitution.ReplaceIsStep | images/env-injector/injector.go:76-78 | in text made of references and of pieces in which the target does not begin, with no stray brace completing it, one ReplaceAll changes exactly the references that begin with the target |
| Substitution.SpliceMeaning | images/env-injector/injector.go:71-79 | for a clean template and values in which no later match begins, with solid values or matches that are apart: the loop is one simultaneous substitution, of values that account for a match being hit by a shorter one |
| Substitution.SplicingIsSimultaneous | images/env-injector/injector.go:71-79 | under the same conditions the loop equals simultaneous left-to-right substitution if no match text is another one followed by a brace, or the longer comes first and all values are present and solid |
| Substitution.SplicingOrderExact | images/env-injector/injector.go:71-79 | for a clean template the loop is simultaneous substitution for all present, clean and solid values if and only if no match is an earlier, shorter match with a brace after it |
| Substitution.SplicingValueExact | images/env-injector/injector.go:71-79 | a value is harmless, that is holds nothing that can become the beginning of a reference, if and only if in every clean template with matches apart the loop is simultaneous substitution when some matches have this value and the others harmless ones |
| Substitution.LastValueFree | images/env-injector/injector.go:71-79 | the value of the match visited last may be anything |
| Substitution.ResolvedTextIsReplacedAgain | images/env-injector/injector.go:76-78 | a resolved value that is the text of a later reference is replaced once more: simultaneous substitution then fails |
| Substitution.RefIsFound | images/env-injector/injector.go:324-326 | a text of the shape of a reference is found as a match where it stands |
| Resolver.DepthAtMostTwo | images/env-injector/injector.go:68-83 | resolution recurses at most twice, for every value |
| Resolver.DepthTwoIsReached | images/env-injector/injector.go:68-83 | and does so for every reference nested in another |
| Resolver.CacheKeyInjective | images/env-injector/injector.go:127 | two lookups share a cache key only if path and version agree |
| Resolver.PlainStep | images/env-injector/injector.go:85-170 | resolving one plain reference through a sound cache gives what a direct read gives, and keeps the cache sound |
| Resolver.ResolveStep | images/env-injector/injector.go:68-174 | the same for any value, with its inline references and their recursion |
| Resolver.ResolveSpansStep | images/env-injector/injector.go:71-79 | the same for the loop over the matches that remain |
| Runs.RunAgrees | images/env-injector/injector.go:68-174 | a run in any order, with writes among its references, agrees with direct reads on every reference that none of its writes can disturb |
| Runs.OrderIndependence | images/env-injector/injector.go:69-173 | for read-only references, and a store that answers the same for what they look up, every order fails exactly when some reference fails by itself, else returns exactly the directly resolved values; nothing is written |
| Runs.InlineMeaning | images/env-injector/injector.go:70-83 | a clean value with inline references becomes the value with each of them replaced, at once, by what its body resolves to, if no later reference begins in these texts and the matches are apart or in order |
| Writes.ResolveIsLeaves | images/env-injector/injector.go:68-174 | the recursion reaches the plain values inside a value in a fixed order and stops at the first that fails |
| Writes.WritesExactly | images/env-injector/injector.go:68-174 | under a given configuration, resolving a value with a fresh injector writes in no store if and only if its text cannot write: no update with a payload that parses is reached unserved by the cache before a reference without a key, or before an update whose payload does not parse and which the cache does not serve |
| Writes.UpdateGuardExact | images/env-injector/injector.go:306-318 | a value that passes the update guard writes in some store if and only if it hides a nested update and, under the configuration, its text can write |
| Writes.PollWritesExactly | images/env-injector/main.go:195-213 | a whole poll, under a given configuration and in a given order of iteration, writes in no store if and only if what is reached in this order cannot write |
| Writes.PollWritesPointwise | images/env-injector/main.go:195-213 | if every payload parses, it writes in no store and no order if and only if no template can write by itself |
| Writes.SharedKeyExactly | images/env-injector/injector.go:127-152 | an update and a read under one cache key, whatever the store answers: in which order of iteration the write happens, and exactly when both orders have the same result |
| Runs.NestedUpdateEscapes | images/env-injector/injector.go:306-318 | an update nested in a reference passes the guard and, resolved from an empty cache, writes to the store |
| Runs.PathsMeaning | images/env-injector/injector.go:180-217 | paths are read directly and fail as a whole; on success a key has the value of the last path that holds it, else its former value |
| Injector.SecretInjector.ReadPath | images/env-injector/injector.go:219-297 | reading or writing one path: result, write log and lease renewals |
| Injector.SecretInjector.InjectLookup | images/env-injector/injector.go:127-170 | through the cache to the key or template, with the cache afterwards |
| Injector.SecretInjector.InjectPlain | images/env-injector/injector.go:85-170 | a value without inline references, with update prefix, login case and missing key |
| Injector.SecretInjector.InjectInline | images/env-injector/injector.go:70-83 | the loop of replacements computes the resolution of the value |
| Injector.SecretInjector.InjectSecretsFromVault | images/env-injector/injector.go:68-174 | the whole run, in the order that the iteration yields |
| Injector.SecretInjector.GetDataFromVault | images/env-injector/injector.go:332-340 | the recursive call: a fresh map filled by a run over one reference |
| Injector.SecretInjector.InjectSecretsFromVaultPath | images/env-injector/injector.go:180-217 | every path in turn, each key injected |
| Injector.SecretInjector.InjectData | images/env-injector/injector.go:207-213 | all keys of one secret, or a failure if one has no text |
| Injector.SingleReference | images/env-injector/injector.go:72-78 | a run over a single reference is the resolution of that reference |
| References.ReferenceMeaning | images/env-injector/injector.go:110-125 | `secrets-store:path#key` reads the path at version -1, with `#version` at that version, and comes to what the reply holds under the key |
| References.UpdateMeaning | images/env-injector/injector.go:226-241 | `>>secrets-store:path#key#payload` writes the payload, or `{}` without one, to the path, once, and comes to what the reply holds; a payload that does not parse is an error without a write |
| References.KeylessMeaning | images/env-injector/injector.go:99-115 | a reference without a key is an error, but under the name VAULT_TOKEN the path `login` gives the client's token |
| References.LiteralMeaning | images/env-injector/injector.go:93-97 | a value that begins with neither prefix and holds no match is passed on unchanged |
| References.InlineReferenceMeaning | images/env-injector/injector.go:70-83 | a reference in braces within other text is replaced by what it comes to, and nothing else is; an error stays one, a missing secret leaves the text |
| References.SecretMeaning | images/env-injector/injector.go:260-294 | a secret with `data` gives the map in it and needs an object in `metadata`; one without `data` gives its own fields |
| References.NoSecretMeaning | images/env-injector/injector.go:236-254 | a failed call or renewal is an error; no secret, or one without fields, is one unless missing secrets are ignored |
| References.KeyMeaning | images/env-injector/injector.go:156-170 | a key names a value and gives its text, or is an error; one with both template delimiters is rendered |
| References.PlainKeyMeaning | images/env-injector/injector.go:85-170 | from the reference and the reply to the text of the key, with and without versions |
| References.LeaseMeaning | images/env-injector/injector.go:243-250 | a read puts the path under renewal exactly in daemon mode, with a lease, if the renewal can be set up, and changes nothing else |
| References.EntryMeaning | images/env-injector/injector.go:183-191 | a delivered path is read at version -1 or at the version after its first `#` |
| References.DeliveryMeaning | images/env-injector/injector.go:193-213 | it delivers the keys under `data` of a secret with versions, else its own, each with its text |
| References.GuardMeaning | images/env-injector/injector.go:306-318 | a value is taken for an update exactly if it begins with `>>secrets-store:` or a match in it begins with `${>>` |
| References.WithoutMarkWatched | images/env-injector/injector.go:306-318 | a value without `>>` never is |
| Digest.SortedUnique | images/env-injector/hash.go:35-40 | a set of keys has one sorted enumeration, whatever order it was found in |
| Digest.BigEndianRoundTrip | images/env-injector/hash.go:45 | a length is recovered from its bytes |
| Digest.FieldsRoundTrip | images/env-injector/hash.go:44-53 | the sequence of fields is recovered from the bytes written |
| Digest.PreImageCanonical | images/env-injector/hash.go:30-56 | two maps are written as the same bytes if and only if they are equal, whatever the iteration orders |
| Digest.DigestComparesMaps | images/env-injector/hash.go:30-56 | without a collision, equal digests mean equal maps, the empty map's digest included |
| Digest.PutUint64 | images/env-injector/hash.go:45 | fills the eight-byte buffer in place with the big-endian length |
| Digest.WriteField | images/env-injector/hash.go:44-48 | appends length and bytes of one field to the hash state |
| Digest.SortStrings | images/env-injector/hash.go:40 | the result is sorted, without duplicates and has the same keys |
| Digest.CollectKeys | images/env-injector/hash.go:36-39 | every key of the map, once |
| Digest.WriteFields | images/env-injector/hash.go:50-53 | appends key and value of every entry, in key order |
| Digest.ComputeSecretsHash | images/env-injector/hash.go:30-56 | the digest of the canonical bytes of the map, or the empty string |
| Startup.DropPassed | images/env-injector/main.go:348-360 | the table loses exactly the trimmed, non-empty names passed through, and the token in the login case |
| Startup.AppendAll | images/env-injector/main.go:419-421 | one entry for every name that is not held back, or that a login lets through, each once and no other |
| Startup.BuildEnv | images/env-injector/main.go:419-421 | one entry for each allowed name, whatever the order of iteration |
| Startup.AllowedExactly | images/env-injector/main.go:348-360 | a variable reaches the child exactly if it is not in the table, or the list names it up to blanks, or in the login case the table lets it through or it is the token |
| Watch.EntriesMeaning | images/env-injector/injector.go:181 | the delivered paths are what stands between the commas |
| Startup.ChildEnvMeaning | images/env-injector/main.go:89-93 | reading the child environment back: an allowed name without `=` has an entry that splits into name and value; it is the only one read under the name, and another name has none, if and only if no allowed name begins with the name and a `=` |
| Startup.ChildValue | images/env-injector/main.go:403-421 | from references and paths to the child: the entry of an allowed name carries the value of the last path that holds the name, else that of the resolved variable |
| Startup.ChildValueDirect | images/env-injector/main.go:403-421 | for a name that is not an update, that is the value of a direct read |
| Startup.ResolveSecrets | images/env-injector/main.go:397-417 | startup resolves all variables and then all paths, or fails |
| Startup.PrepareWatch | images/env-injector/main.go:425-463 | which templates are polled, among them every value without `>>`; the digest of the baseline; and whether there is anything to watch: a path, or a polled value that begins like a reference or holds one |
| Startup.WatchMeaning | images/env-injector/main.go:436-463 | what is watched: every value but those that begin with an update or hold one in braces, so every value without `>>`; there is something to poll exactly if there is a path, or a watched value begins like a reference or holds one |
| Startup.Poll | images/env-injector/main.go:195-234 | one tick: a fresh injector over a fresh copy; it writes nothing unless what it reaches can write, and for read-only templates digests the values that the polled places have now |
| Startup.PollOutcome | images/env-injector/main.go:209-229 | a poll succeeds if and only if every template and path can be resolved directly; a failed one has written nothing either |
| Watch.StartupView | images/env-injector/main.go:403-448 | what startup resolved, name by name, is what direct reads give, in any order of the updates in between, as long as these do not change what is watched |
| Watch.PollView | images/env-injector/main.go:196-213 | what a poll resolves is what direct reads give now |
| Watch.RestartExactly | images/env-injector/main.go:231-245 | digests agree if and only if every watched name and delivered key has its baseline value |
| Watch.DirectSame | images/env-injector/main.go:180-183 | a reference that resolved at startup resolves to the same text while the places that it looks up and the token answer the same, though polls renew no lease |
| Watch.UnchangedStoreExactly | images/env-injector/main.go:431-446 | while everything polled answers the same, baseline and poll agree on every key if and only if no path delivers an update-style name |
| Watch.UnchangedStoreCanDiffer | images/env-injector/main.go:431-446 | the failing side occurs: a variable that holds an update, a path that delivers it, and baseline and poll differ though nothing changes |
| Startup.QuietExactly | images/env-injector/main.go:403-463 | from startup to any later poll, while the watched places and the token answer the same: in every order of iteration the poll succeeds and writes nothing, and its digest is that of the baseline if and only if no path delivers an update-style name |
| Watch.PollingReadOnlyExactly | images/env-injector/main.go:438-446 | under a given configuration polling writes in no store and no order of iteration if and only if in no order the polled texts can write |
| Watch.NoNestedUpdatesQuiet | images/env-injector/main.go:438-446 | they cannot if no polled template hides a nested update |
| Supervisor.InvStep | images/env-injector/main.go:518-587 | every step of every participant keeps the invariant |
| Supervisor.InvRun | images/env-injector/main.go:518-587 | so does every interleaving |
| Supervisor.SignalsConserved | images/env-injector/main.go:538-557 | at most one signal in the channel; accepted signals are those handled, then held, then queued, in order and each once; only the kernel's are dropped |
| Supervisor.SendersDiscipline | images/env-injector/main.go:124-266 | in every run the watcher and each lease renewer send SIGTERM, then SIGKILL, each at most once and the second only after their own timer fired |
| Supervisor.KernelSignals | images/env-injector/main.go:506-557 | in every run the kernel's signals are offered to the process as the signals that they are, in order |
| Supervisor.SignalImpliesFlag | images/env-injector/main.go:245-251 | a signal of the watcher, queued, held or handled, implies a differing poll and the restart flag |
| Supervisor.OutcomeMeaning | images/env-injector/main.go:508-587 | for every run: main leaves with 2 if and only if the flag was raised before it decided (or the process itself ended with 2), else with 1 if the process never started, -1 if the wait failed or a signal ended it, or its exit code; a watcher signal that reached the process means that it was raised in time, and no differing poll that it was not |
| Supervisor.UnchangedLeavesAlone | images/env-injector/main.go:231-245 | while no poll differs the watcher sends nothing and main leaves with the status of the process |
| Supervisor.WatcherCanStop | images/env-injector/main.go:191-266 | after the cancellation the watcher reaches its end by at most two steps of its own, sending nothing, whatever the channel and the forwarder do |
| Supervisor.RenewerBlockedExactly | images/env-injector/main.go:126-132 | a lease renewer that wants to send has no such way out: in a reachable state some continuation lets it move on if and only if the channel is not clogged, that is full while the forwarder has left, leaves with the signal in its hand because the process is reaped, or was never started |
| Supervisor.RenewerCanBlock | images/env-injector/main.go:126-132 | a run that reaches such a state, with a renewer waiting and main not gone |
| Supervisor.NothingAfterReaping | images/env-injector/main.go:539-557 | once the process is reaped nothing reaches it any more, and the forwarder takes at most one more signal |
| Supervisor.ChangeCanBeLost | images/env-injector/main.go:559-587 | a run in which a poll differed and the flag was raised, but after the decision: the status is that of the process |
| TokenClient.Client.NewVaultClient | images/env-injector/client.go:64-117 | token file, static token or login; no client if one of them fails |
| TokenClient.Client.Relogin | images/env-injector/client.go:123-161 | the new state and result for every outcome of file, login and watcher creation |
| TokenClient.Client.Close | images/env-injector/client.go:52-62 | the client is closed and its watcher stopped |
| TokenClient.Client.StartTokenRenewal | images/env-injector/client.go:198-210 | a new watcher is stored and started, or nothing changes |
| TokenClient.OneLiveWatcher | images/env-injector/client.go:52-161 | over any sequence of operations at most one watcher runs and it is the stored one; every login and start finds none running and the client open |
| TokenClient.CreatedExactly | images/env-injector/client.go:80-117 | when there is a client, if and only if; its token (file, given or login); that a watcher renews it exactly for a login with something to renew, in daemon mode or with a watching restart mode |
| TokenClient.ReloginExactly | images/env-injector/client.go:123-161 | when a re-login succeeds, if and only if, with the token and the watcher it leaves |
| TokenClient.ClosedStays | images/env-injector/client.go:127-129 | a closed client never logs in, changes its token or starts a watcher: all that is added to its calls is further closing |
| TokenClient.NeverRenewed | images/env-injector/client.go:109-113 | a short-lived client, or one with a given token, never has a watcher |
| PodMutation.CollectTemplates | images/vault-secrets-webhook/pkg/webhook/pod.go:131-154 | the variables of a container that hold a template, or a failure if a lookup fails |
| PodMutation.CollectArgs | images/vault-secrets-webhook/pkg/webhook/pod.go:173-191 | the command line that Kubernetes would have started |
| PodMutation.MutateContainer | images/vault-secrets-webhook/pkg/webhook/pod.go:130-351 | one container: a failure, left alone, or rewritten |
| PodMutation.MutateContainers | images/vault-secrets-webhook/pkg/webhook/pod.go:127-355 | all containers in place and in order; after a failure those before it stay rewritten and the rest untouched |
| PodMutation.MutatePod | images/vault-secrets-webhook/pkg/webhook/pod.go:34-116 | the whole pod, when it fails, and that a failure adds no volume |
| PodMutation.CommandPreserved | images/vault-secrets-webhook/pkg/webhook/pod.go:173-194 | a rewritten container starts the injector with the original command line, that of its command and arguments with the image's where they are missing, and the injector runs it exactly unless it is empty or one of the two it keeps for itself |
| PodMutation.ProbesPreserved | images/vault-secrets-webhook/pkg/webhook/pod.go:196-216 | each of the three probes stays the probe it was, an exec probe with its command run through the injector if configured; name, image and sources of the environment stay |
| PodMutation.CopyRunsFirst | images/vault-secrets-webhook/pkg/webhook/pod.go:413-444 | the first init container of a rewritten pod copies the injector into the shared volume |
| PodMutation.TwiceIsNotOnce | images/vault-secrets-webhook/pkg/webhook/pod.go:118-125 | without the marker volume a second rewriting would start the injector through the injector |
| PodMutation.DecisionExactly | images/vault-secrets-webhook/pkg/webhook/pod.go:131-189 | a container fails if and only if a lookup fails, or it is to be rewritten and has no command and its image cannot be read; it is rewritten if and only if it does not fail, is not to be skipped, and a path is configured or something it holds or refers to is a template |
| PodMutation.TemplatesExactly | images/vault-secrets-webhook/pkg/webhook/pod.go:140-143 | a template is what begins like a reference or holds one; the injector passes everything else on unchanged |
| PodMutation.EnvMeaning | images/vault-secrets-webhook/pkg/webhook/pod.go:225-349 | the original environment is a prefix of the new one, and every name keeps its meaning unless the webhook sets it |
| PodMutation.LoginSettings | images/vault-secrets-webhook/pkg/webhook/pod.go:225-245 | a rewritten container has the configured address, method, path and role under their names |
| PodMutation.IdentitySettings | images/vault-secrets-webhook/pkg/webhook/pod.go:264-294 | token file, token and namespace where configured, else what the container had |
| PodMutation.ConnectionSettings | images/vault-secrets-webhook/pkg/webhook/pod.go:229-319 | certificate check and timeout; the mounted certificate file where there is a TLS secret, else configured bytes, else what the container had |
| PodMutation.OutputSettings | images/vault-secrets-webhook/pkg/webhook/pod.go:246-286 | missing secrets, pass-through and log format; the container's own log level wins over the configured one |
| PodMutation.WatchSettings | images/vault-secrets-webhook/pkg/webhook/pod.go:321-349 | paths where configured; the restart mode wins over the container's, with the daemon or the poll interval that belongs to it |
| PodMutation.OthersKept | images/vault-secrets-webhook/pkg/webhook/pod.go:225-349 | every other variable keeps its meaning |
| PodMutation.SettingsHeldBack | images/env-injector/main.go:51-93 | across the two programs: without a login what the webhook sets does not reach the process unless passed through, but for VAULT_CACERT_BYTES |
| PodMutation.Idempotent | images/vault-secrets-webhook/pkg/webhook/pod.go:37-40 | a second run after a run without failure succeeds and changes nothing |
| PodMutation.MountsBacked | images/vault-secrets-webhook/pkg/webhook/pod.go:296-311 | the mounts of a container are kept, and each added one has its volume in the pod |
| PodMutation.AddedContainerBacked | images/vault-secrets-webhook/pkg/webhook/pod.go:106-113 | the added init container comes first and mounts only volumes of the pod, also where there was no init container |
| PodMutation.InitMountsBacked | images/vault-secrets-webhook/pkg/webhook/pod.go:106-113 | the init containers of the pod follow in order, keep their mounts, and each added mount has its volume |
| PodMutation.RewrittenFindsFiles | images/vault-secrets-webhook/pkg/webhook/pod.go:193-311 | a rewritten container has the injector's volume mounted where its command looks, and VAULT_CACERT names a file of a mounted volume that is filled from the configured secret |
| PodMutation.VolumesDistinctExactly | images/vault-secrets-webhook/pkg/webhook/pod.go:371-411 | volume names stay distinct if and only if they were and not both TLS names were taken |
| SecretImport.CreateSecretProviderClass | images/ssi-controller/internal/controller/secretsstoreimport_controller.go:118-212 | the class rendered from an import, or a failure of the YAML printer |
| SecretImport.ParametersExactly | images/ssi-controller/internal/controller/secretsstoreimport_controller.go:120-170 | parameter by parameter under its own name: role, objects and certificate check always, the others exactly where given, and nothing else |
| SecretImport.RenderedMeaning | images/ssi-controller/internal/controller/secretsstoreimport_controller.go:146-212 | provider, owner, the one secret with its name and type, and for each file its entry and the object that the provider looks up |
| SecretImport.RenderingRoundTrip | images/ssi-controller/internal/controller/secretsstoreimport_controller.go:118-212 | everything in an import but its kind can be read back from its rendering |
| SecretImport.RenderingDeterminesSpec | images/ssi-controller/internal/controller/secretsstoreimport_controller.go:118-212 | two imports are rendered alike if and only if they are alike, the kind apart |
| SecretImport.Reconcile | images/ssi-controller/internal/controller/secretsstoreimport_controller.go:63-115 | one run, call by call, with what other writers do in between and calls that fail |
| SecretImport.SuccessMeaning | images/ssi-controller/internal/controller/secretsstoreimport_controller.go:87-114 | success after a write means the rendering of the import that was read is stored, and it replaced the very object that was fetched, untouched in between, or none |
| SecretImport.EveryRunSafe | images/ssi-controller/internal/controller/secretsstoreimport_controller.go:63-115 | so for every run in a sequence of runs, however others and failing calls disturb them |
| SecretImport.SucceedsExactly | images/ssi-controller/internal/controller/secretsstoreimport_controller.go:105-111 | if no call fails by itself the write goes through if and only if nobody touched the object since it was fetched |
| SecretImport.FailureMeaning | images/ssi-controller/internal/controller/secretsstoreimport_controller.go:63-115 | a run without success leaves what others wrote, or also the rendering if the answer was lost, and nothing else |
| SecretImport.Converges | images/ssi-controller/internal/controller/secretsstoreimport_controller.go:87-114 | undisturbed, one run reaches the rendering and any number of runs keeps it, other objects untouched |
| SecretImport.CollectDecode | images/secrets-store-csi-driver/patches/001-secrets-store-csi-driver.patch:115-128 | a name maps to true exactly if some entry of that name asks for decoding |
| SecretImport.Directory.WritePayloads | images/secrets-store-csi-driver/patches/001-secrets-store-csi-driver.patch:106-148 | all payloads, each decoded or raw, or no change at all if one cannot be decoded |
| SecretImport.AttributesExactly | images/secrets-store-csi-driver/patches/001-secrets-store-csi-driver.patch:42-53 | the provider is sent the class's parameters unless the pod's replace them, the pod's, the secret objects under `secretObjects`, and nothing else |
| SecretImport.ObjectsArrive | images/secrets-store-csi-driver/patches/001-secrets-store-csi-driver.patch:42-50 | the entries rendered by the controller arrive unchanged at the writer, whatever pod parameters are merged in |
| SecretImport.MarkedExactly | images/ssi-controller/internal/controller/secretsstoreimport_controller.go:153-157 | a name is decoded on the node if and only if some file of the import with that name asks for it |
| SecretImport.FileMeaning | images/secrets-store-csi-driver/patches/001-secrets-store-csi-driver.patch:115-148 | for distinct file names, from import to file: the payload of a file is decoded exactly if the file says so, and every file written is a payload |

## Left out

- HTTP, Vault, Kubernetes, registry and TLS clients, file access and logging are parameters or single steps that may fail.
- The Go template engine with Sprig, `cast` conversions and JSON parsing are uninterpreted functions that may fail.
- SHA-256 is an uninterpreted function; freedom from collisions is a hypothesis about the two maps compared.
- Strings.TrimSpace: white space outside ASCII is not trimmed.
- Strings.IndexFrom: one-character separators only, as all uses have them.
- Secrets that differ at every read: a store is a function of the path, the version and the writes before.
- Warnings about destroyed or deleted versions (images/env-injector/injector.go:276-291), which change no result.
- The mutex around the cache: one injector is used by one goroutine at a time.
- Reading the process environment: entries without `=`, on which the source would fail, do not occur in a map.
- The poll interval and its jitter; a poll may happen at any time.
- `VAULT_REVOKE_TOKEN`, `VAULT_ENV_DELAY` and the mode without watching, in which the injector replaces itself by the process.
- Which failed polls lead to a re-login: the watcher's step and the client's operations are separate models.
- Supervisor: the check of the process state and the sending of the signal are one step, whose outcomes cover both.
- Supervisor: that the random choice of a ready `select` branch eventually takes the cancellation is not stated, only that it can.
- TokenClient.Client.Relogin: the mutex makes operations atomic; a watcher that ends by itself does so between them.
- PodMutation.MutateContainers: probes are values, so two containers that share a probe object are not modelled; decoded pods have none.
- Security context, resources and pull policy of the added init container, and the variables that MutatePod builds for it but never uses.
- `$(NAME)` expansion in container arguments, which the kubelet does with the extended environment.
- The webhook's own resolver, its VaultConfig parsing, image lookup and TLS certificate code.
- SecretImport.Converges: an update always yields a new version, also one that changes nothing.
- SecretImport.Directory.WritePayloads: validation of paths and the atomic writer are single steps; the rest of the driver and the provider, which returns payloads by object name, are not part of this model.
- Garbage collection of the SecretProviderClass after its import is deleted.
