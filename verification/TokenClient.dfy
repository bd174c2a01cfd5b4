/** The secret store client and the watcher that renews its token. */
module TokenClient {
  import opened Strings

  // A login is refused or sets the client token, and may come without a secret to renew.
  datatype Login = Refused | Granted(token: string, renewable: bool)

  datatype Environment = Environment(daemon: bool, restartMode: string, token: string, tokenFile: string)

  /** Calls that change something, in order: logins, token watchers started, stopped or ended by
      themselves, and the closing of the client. */
  datatype Call = LogIn | Start(k: nat) | Stop(k: nat) | End(k: nat) | Close

  // Watchers are numbered in the order of their creation; `live` holds those that run.
  datatype State = State(
    token: string, stored: Option<nat>, closed: bool, longRunning: bool, tokenFile: string, usedLogin: bool,
    created: nat, live: set<nat>, calls: seq<Call>)

  const LOGIN_TOKEN := "vault:login"

  predicate LongRunning(env: Environment) {
    env.daemon || env.restartMode == "watch-for-data" || env.restartMode == "watch-for-lease"
  }

  function Stopped(s: State): State {
    if s.stored.None? || s.stored.value !in s.live then s
    else s.(live := s.live - {s.stored.value}, calls := s.calls + [Call.Stop(s.stored.value)])
  }

  function Started(s: State): State {
    s.(stored := Some(s.created), created := s.created + 1, live := s.live + {s.created},
       calls := s.calls + [Call.Start(s.created)])
  }

  // What follows a login: a long-running client has its token renewed, if it got a secret.
  function Renewed(s: State, login: Login, creatable: bool): (State, bool) {
    if login.Granted? && s.longRunning && login.renewable then
      if creatable then (Started(s), true) else (s, false)
    else (s, true)
  }

  function LoggedIn(s: State, login: Login, creatable: bool): (State, bool) {
    var tried := s.(calls := s.calls + [LogIn]);
    match login
    case Refused => (tried, false)
    case Granted(token, _) => Renewed(tried.(token := token, usedLogin := true), login, creatable)
  }

  function Fresh(env: Environment): State {
    State("", None, false, LongRunning(env), "", false, 0, {}, [])
  }

  function Created(env: Environment, file: Option<string>, login: Login, creatable: bool): Option<State> {
    var s := Fresh(env);
    if env.tokenFile != "" then
      if file.None? then None else Some(s.(token := TrimSpace(file.value), tokenFile := env.tokenFile))
    else if env.token != "" && env.token != LOGIN_TOKEN then Some(s.(token := env.token))
    else
      var (t, ok) := LoggedIn(s, login, creatable);
      if ok then Some(t) else None
  }

  function Relogged(s: State, file: Option<string>, login: Login, creatable: bool): (State, bool) {
    if s.closed then (s, false)
    else if s.tokenFile != "" then
      if file.None? then (s, false) else (s.(token := TrimSpace(file.value)), true)
    else if s.usedLogin then LoggedIn(Stopped(s).(stored := None), login, creatable)
    else (s, false)
  }

  function Closed(s: State): State {
    Stopped(s.(closed := true, calls := s.calls + [Close]))
  }

  // A watcher ends when its token can no longer be renewed.
  function Ended(s: State, k: nat): State {
    if k in s.live then s.(live := s.live - {k}, calls := s.calls + [Call.End(k)]) else s
  }

  class TokenWatcher {
    ghost const k: nat
    var running: bool

    constructor (ghost k: nat)
      ensures this.k == k && !running
    {
      this.k := k;
      running := false;
    }

    method Start()
      modifies this
      ensures running
    {
      running := true;
    }

    method Stop()
      modifies this
      ensures !running
    {
      running := false;
    }
  }

  class Client {
    var token: string
    var tokenWatcher: TokenWatcher?
    var closed: bool
    var longRunning: bool
    var tokenFile: string
    var usedLogin: bool
    // All watchers ever created, and what happened to them.
    ghost var watchers: seq<TokenWatcher>
    ghost var calls: seq<Call>

    ghost predicate Valid()
      reads this, watchers
    {
      && (forall k | 0 <= k < |watchers| :: watchers[k].k == k)
      && (tokenWatcher != null ==> tokenWatcher in watchers)
    }

    ghost function Live(): set<nat>
      reads this, watchers
    {
      set k: nat | k < |watchers| && watchers[k].running
    }

    ghost function Abstract(): State
      reads this, watchers
    {
      State(token, if tokenWatcher == null then None else Some(tokenWatcher.k), closed, longRunning, tokenFile,
            usedLogin, |watchers|, Live(), calls)
    }

    constructor (env: Environment)
      ensures Valid() && watchers == [] && Abstract() == Fresh(env)
    {
      token := "";
      tokenWatcher := null;
      closed := false;
      longRunning := LongRunning(env);
      tokenFile := "";
      usedLogin := false;
      watchers := [];
      calls := [];
    }

    method StopWatcher()
      requires Valid()
      modifies this`calls, watchers
      ensures Valid() && Abstract() == Stopped(old(Abstract()))
    {
      if tokenWatcher != null {
        if tokenWatcher.running { calls := calls + [Call.Stop(tokenWatcher.k)]; }
        tokenWatcher.Stop();
      }
    }

    method StartTokenRenewal(creatable: bool) returns (ok: bool)
      requires Valid()
      modifies this`calls, this`tokenWatcher, this`watchers
      ensures Valid() && ok == creatable
      ensures Abstract() == if ok then Started(old(Abstract())) else old(Abstract())
      ensures Kept(old(watchers))
    {
      if !creatable { return false; }
      var watcher := new TokenWatcher(|watchers|);
      watchers := watchers + [watcher];
      tokenWatcher := watcher;
      watcher.Start();
      calls := calls + [Call.Start(watcher.k)];
      ok := true;
    }

    method LogInAndRenew(login: Login, creatable: bool) returns (ok: bool)
      requires Valid()
      modifies this`calls, this`token, this`usedLogin, this`tokenWatcher, this`watchers
      ensures Valid() && (Abstract(), ok) == LoggedIn(old(Abstract()), login, creatable)
      ensures Kept(old(watchers))
    {
      calls := calls + [LogIn];
      assert Live() == old(Live());
      if login.Refused? { return false; }
      token := login.token;
      usedLogin := true;
      assert Live() == old(Live());
      ok := true;
      if longRunning && login.renewable {
        ok := StartTokenRenewal(creatable);
      }
    }

    /** Only an own watcher, or a new one, is ever touched. */
    twostate predicate Kept(before: seq<TokenWatcher>)
      reads this, watchers
    {
      && |before| <= |watchers| && watchers[..|before|] == before
      && forall k | |before| <= k < |watchers| :: fresh(watchers[k])
    }

    /** newVaultClient: no client if the token file cannot be read, the login is refused or its
        token cannot be renewed. */
    static method NewVaultClient(env: Environment, file: Option<string>, login: Login,
                                 creatable: bool) returns (client: Client?)
      ensures client == null <==> Created(env, file, login, creatable).None?
      ensures client != null ==> fresh(client) && client.Valid() && fresh(client.watchers)
      ensures client != null ==> Some(client.Abstract()) == Created(env, file, login, creatable)
    {
      client := new Client(env);
      if env.tokenFile != "" {
        if file.None? { return null; }
        client.token := TrimSpace(file.value);
        client.tokenFile := env.tokenFile;
        assert client.Live() == {};
      } else if env.token != "" && env.token != LOGIN_TOKEN {
        client.token := env.token;
        assert client.Live() == {};
      } else {
        var ok := client.LogInAndRenew(login, creatable);
        if !ok { return null; }
      }
    }

    /** Relogin, whatever the token file, the login and the new watcher do. */
    method Relogin(file: Option<string>, login: Login, creatable: bool) returns (ok: bool)
      requires Valid()
      modifies this, watchers
      ensures Valid() && (Abstract(), ok) == Relogged(old(Abstract()), file, login, creatable)
    {
      if closed { return false; }
      if tokenFile != "" {
        if file.None? { return false; }
        token := TrimSpace(file.value);
        assert Live() == old(Live());
        return true;
      }
      if !usedLogin { return false; }
      if tokenWatcher != null {
        StopWatcher();
        label Stopping:
        tokenWatcher := null;
        assert Live() == old@Stopping(Live());
      }
      ok := LogInAndRenew(login, creatable);
    }

    method Close()
      requires Valid()
      modifies this, watchers
      ensures Valid() && Abstract() == Closed(old(Abstract()))
    {
      closed := true;
      calls := calls + [Call.Close];
      assert Live() == old(Live());
      StopWatcher();
    }
  }

  // ----- any sequence of operations on one client -----

  datatype Op = Relogin(file: Option<string>, login: Login, creatable: bool) | CloseClient | WatcherEnds(k: nat)

  function Step(s: State, op: Op): State {
    match op
    case Relogin(file, login, creatable) => Relogged(s, file, login, creatable).0
    case CloseClient => Closed(s)
    case WatcherEnds(k) => Ended(s, k)
  }

  function Run(s: State, ops: seq<Op>): State
    decreases |ops|
  {
    if ops == [] then s else Run(Step(s, ops[0]), ops[1..])
  }

  function LiveNext(live: set<nat>, call: Call): set<nat> {
    match call
    case Start(k) => live + {k}
    case Stop(k) => live - {k}
    case End(k) => live - {k}
    case _ => live
  }

  // The watchers that run, read off the calls alone.
  function LiveAfter(calls: seq<Call>): set<nat>
    decreases |calls|
  {
    if calls == [] then {} else LiveNext(LiveAfter(calls[..|calls| - 1]), calls[|calls| - 1])
  }

  predicate Allowed(calls: seq<Call>, next: Call) {
    match next
    case LogIn => LiveAfter(calls) == {} && Close !in calls
    case Start(k) => LiveAfter(calls) == {} && Close !in calls && Start(k) !in calls
    case Stop(k) => k in LiveAfter(calls)
    case End(k) => k in LiveAfter(calls)
    case Close => true
  }

  /** Every login and every start of a watcher finds no watcher running and the client open. */
  predicate Disciplined(calls: seq<Call>) {
    forall i | 0 <= i < |calls| :: Allowed(calls[..i], calls[i])
  }

  ghost predicate Inv(s: State) {
    && Disciplined(s.calls)
    && s.live == LiveAfter(s.calls)
    && (s.closed <==> Close in s.calls)
    && (s.closed ==> s.live == {})
    && (forall k | k in s.live :: s.stored == Some(k))
    && (s.stored.Some? ==> s.stored.value < s.created)
    && (forall k: nat | Start(k) in s.calls :: k < s.created)
  }

  lemma OneMoreCall(calls: seq<Call>, next: Call)
    requires Disciplined(calls) && Allowed(calls, next)
    ensures Disciplined(calls + [next])
    ensures LiveAfter(calls + [next]) == LiveNext(LiveAfter(calls), next)
  {
    var more := calls + [next];
    assert more[..|calls|] == calls;
    forall i | 0 <= i < |more| ensures Allowed(more[..i], more[i]) {
      if i < |calls| { assert more[..i] == calls[..i]; }
    }
  }

  lemma StopKeeps(s: State)
    requires Inv(s)
    ensures Inv(Stopped(s)) && Stopped(s).live == {}
  {
    if s.stored.Some? && s.stored.value in s.live {
      OneMoreCall(s.calls, Call.Stop(s.stored.value));
    }
  }

  // Token and origin play no part.
  lemma Relabelled(s: State, token: string, usedLogin: bool)
    requires Inv(s)
    ensures Inv(s.(token := token, usedLogin := usedLogin))
  {
  }

  lemma TryKeeps(s: State)
    requires Inv(s) && s.live == {} && !s.closed
    ensures Inv(s.(calls := s.calls + [LogIn]))
  {
    OneMoreCall(s.calls, LogIn);
  }

  lemma StartKeeps(s: State)
    requires Inv(s) && s.live == {} && !s.closed
    ensures Inv(Started(s))
  {
    assert Start(s.created) !in s.calls;
    OneMoreCall(s.calls, Call.Start(s.created));
  }

  lemma LoginKeeps(s: State, login: Login, creatable: bool)
    requires Inv(s) && s.live == {} && !s.closed
    ensures Inv(LoggedIn(s, login, creatable).0)
  {
    TryKeeps(s);
    hide Inv;
    var tried := s.(calls := s.calls + [LogIn]);
    if login.Granted? {
      Relabelled(tried, login.token, true);
      StartKeeps(tried.(token := login.token, usedLogin := true));
    }
  }

  lemma ReloginKeeps(s: State, file: Option<string>, login: Login, creatable: bool)
    requires Inv(s)
    ensures Inv(Relogged(s, file, login, creatable).0)
  {
    if !s.closed && s.tokenFile == "" && s.usedLogin {
      StopKeeps(s);
      assert Inv(Stopped(s).(stored := None));
      LoginKeeps(Stopped(s).(stored := None), login, creatable);
    } else if !s.closed && s.tokenFile != "" && file.Some? {
      assert Inv(s.(token := TrimSpace(file.value)));
    }
  }

  // Once closed, what is left is to stop the stored watcher.
  lemma CloseStops(s: State)
    requires Inv(s)
    ensures Disciplined(Closed(s).calls) && LiveAfter(Closed(s).calls) == {} && Closed(s).live == {}
    ensures
      || Closed(s).calls == s.calls + [Close]
      || exists k: nat :: Closed(s).calls == s.calls + [Close] + [Call.Stop(k)]
  {
    OneMoreCall(s.calls, Close);
    if s.stored.Some? && s.stored.value in s.live {
      OneMoreCall(s.calls + [Close], Call.Stop(s.stored.value));
      assert s.live == {s.stored.value};
    }
  }

  lemma CloseKeeps(s: State)
    requires Inv(s)
    ensures Inv(Closed(s))
  {
    CloseStops(s);
    hide Disciplined, LiveAfter;
    assert Closed(s).calls[|s.calls|] == Close;
    StartsIn(s.calls, Closed(s).calls);
  }

  lemma StartsIn(calls: seq<Call>, more: seq<Call>)
    requires calls <= more && forall i | |calls| <= i < |more| :: !more[i].Start?
    ensures forall k: nat | Start(k) in more :: Start(k) in calls
  {
  }

  lemma EndKeeps(s: State, k: nat)
    requires Inv(s)
    ensures Inv(Ended(s, k))
  {
    if k in s.live { OneMoreCall(s.calls, Call.End(k)); }
  }

  lemma StepKeeps(s: State, op: Op)
    requires Inv(s)
    ensures Inv(Step(s, op))
  {
    match op {
      case Relogin(file, login, creatable) => ReloginKeeps(s, file, login, creatable);
      case CloseClient => CloseKeeps(s);
      case WatcherEnds(k) => EndKeeps(s, k);
    }
  }

  lemma {:induction false} RunKeeps(s: State, ops: seq<Op>)
    requires Inv(s)
    ensures Inv(Run(s, ops))
    decreases |ops|
  {
    if ops != [] {
      StepKeeps(s, ops[0]);
      RunKeeps(Step(s, ops[0]), ops[1..]);
    }
  }

  lemma CreatedKeeps(env: Environment, file: Option<string>, login: Login, creatable: bool)
    requires Created(env, file, login, creatable).Some?
    ensures Inv(Created(env, file, login, creatable).value)
  {
    LoginKeeps(Fresh(env), login, creatable);
  }

  /** Whatever is done with a new client, at most one watcher runs, and it is the stored one; every
      login and every start found none running and the client open. */
  lemma OneLiveWatcher(env: Environment, file: Option<string>, login: Login, creatable: bool, ops: seq<Op>)
    requires Created(env, file, login, creatable).Some?
    ensures var s := Run(Created(env, file, login, creatable).value, ops);
      && Disciplined(s.calls) && s.live == LiveAfter(s.calls)
      && (s.live == {} || (s.stored.Some? && s.live == {s.stored.value}))
      && (Close in s.calls ==> s.live == {})
  {
    CreatedKeeps(env, file, login, creatable);
    RunKeeps(Created(env, file, login, creatable).value, ops);
  }

  // A client without a token file logs in, unless it is given a token of its own.
  predicate LogsIn(env: Environment) {
    env.tokenFile == "" && (env.token == "" || env.token == "vault:login")
  }

  // The login's token is renewed for a process that lives with changing secrets.
  predicate NeedsRenewal(env: Environment, login: Login) {
    && LogsIn(env) && login.Granted? && login.renewable
    && (env.daemon || env.restartMode == "watch-for-data" || env.restartMode == "watch-for-lease")
  }

  /** When there is a client at all, which token it has, and whether a watcher renews it. */
  lemma CreatedExactly(env: Environment, file: Option<string>, login: Login, creatable: bool)
    ensures Created(env, file, login, creatable).Some? <==>
      && (env.tokenFile != "" ==> file.Some?)
      && (LogsIn(env) ==> login.Granted? && (NeedsRenewal(env, login) ==> creatable))
    ensures Created(env, file, login, creatable).Some? ==>
      var s := Created(env, file, login, creatable).value;
      && (env.tokenFile != "" ==> s.token == TrimSpace(file.value))
      && (LogsIn(env) ==> s.token == login.token)
      && (env.tokenFile == "" && !LogsIn(env) ==> s.token == env.token)
      && s.live == (if NeedsRenewal(env, login) then {0} else {})
      && (s.usedLogin <==> LogsIn(env)) && s.tokenFile == env.tokenFile && !s.closed
      && (LogIn in s.calls <==> LogsIn(env))
  {
    hide TrimSpace;
  }

  /** When a re-login succeeds, and what then renews the token: the one watcher that it started, if
      it got something to renew, and otherwise what was there before (token file) or nothing. */
  lemma ReloginExactly(s: State, file: Option<string>, login: Login, creatable: bool)
    requires Inv(s)
    ensures var (t, ok) := Relogged(s, file, login, creatable);
      && (ok <==> !s.closed && if s.tokenFile != "" then file.Some?
                               else s.usedLogin && login.Granted? && (s.longRunning && login.renewable ==> creatable))
      && (ok ==> t.token == if s.tokenFile != "" then TrimSpace(file.value) else login.token)
      && (s.closed || s.tokenFile != "" || !s.usedLogin ==> t.live == s.live && t.calls == s.calls)
      && (!s.closed && s.tokenFile == "" && s.usedLogin ==>
            t.live == if ok && s.longRunning && login.renewable then {s.created} else {})
  {
    StopKeeps(s);
  }

  // Nothing but further closing.
  predicate OnlyCloses(calls: seq<Call>, more: seq<Call>) {
    calls <= more && forall i | |calls| <= i < |more| :: more[i] == Close
  }

  /** A closed client stays as it is: it does not log in, and starts, stops and loses no watcher. */
  lemma {:induction false} ClosedStays(s: State, ops: seq<Op>)
    requires Inv(s) && s.closed
    ensures Run(s, ops).closed && Run(s, ops).live == {} && Run(s, ops).created == s.created
    ensures Run(s, ops).token == s.token
    ensures OnlyCloses(s.calls, Run(s, ops).calls)
    decreases |ops|
  {
    if ops != [] {
      StepKeeps(s, ops[0]);
      assert OnlyCloses(s.calls, Step(s, ops[0]).calls);
      ClosedStays(Step(s, ops[0]), ops[1..]);
    }
  }

  /** A client that is short-lived, or has its token from a file or the environment, never has a
      watcher. */
  lemma {:induction false} NeverRenewed(s: State, ops: seq<Op>)
    requires s.tokenFile != "" || !s.usedLogin || !s.longRunning
    requires s.created == 0 && s.live == {}
    ensures Run(s, ops).created == 0 && Run(s, ops).live == {}
    decreases |ops|
  {
    if ops != [] {
      NeverRenewed(Step(s, ops[0]), ops[1..]);
    }
  }
}
