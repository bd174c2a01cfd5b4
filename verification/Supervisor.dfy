/** The supervised process: secret watcher, lease renewers, signal forwarder, child and main,
    which share one channel with room for a single signal. */
module Supervisor {
  import opened Strings

  datatype Sig = Term | Kill | Int | Hup | Quit

  datatype Origin = Kernel | Watcher | Lease(i: nat)

  datatype Msg = Msg(sig: Sig, origin: Origin)

  // The watcher and the renewers are described by the statement they are about to execute.
  datatype WatchPc = Polling | Mismatched | SendTerm | AwaitTimer | SendKill | Stopped

  // `differed` and `timedOut` record that a poll saw a change and that the timer fired.
  datatype Watch = Watch(pc: WatchPc, flag: bool, differed: bool, timedOut: bool)

  datatype LeasePc = Renewing | WantTerm | Sleeping | WantKill | Finished

  datatype ForwarderPc = Receiving | Holding(msg: Msg) | Left

  // What became of a signal that the forwarder took out of the channel.
  datatype Fate = Delivered | Lost | Failed | Done | Skipped

  datatype Handling = Handling(msg: Msg, fate: Fate)

  datatype Forwarder = Forwarder(pc: ForwarderPc, handled: seq<Handling>)

  datatype Ending = Exited(code: int) | Signalled

  datatype Child = Absent | Running | Ended(ending: Ending)

  datatype MainPc = Starting | Waiting | Returned | Cancelled | Unhooked | Exiting(status: int) | Gone(status: int)

  // `own` is the status that the process itself calls for, `seen` the value main read from the flag.
  datatype Control = Control(pc: MainPc, reaped: bool, own: int, seen: bool)

  // The channel, with everything ever offered to it, put into it and turned away.
  datatype Line = Line(chan: seq<Msg>, offered: seq<Msg>, accepted: seq<Msg>, dropped: seq<Msg>)

  datatype State = State(watch: Watch, leases: seq<LeasePc>, forwarder: Forwarder, child: Child, main: Control,
                         line: Line)

  datatype Event =
    | Launch(ok: bool)
    | Poll(changed: bool)
    | StoreFlag
    | WatcherSend
    | WatcherTimer
    | WatcherQuit
    | LeaseEnds(i: nat)
    | LeaseSend(i: nat)
    | LeaseTimer(i: nat)
    | FromKernel(sig: Sig)
    | Take
    | Forward(fate: Fate)
    | ChildEnds(ending: Ending)
    | WaitReturns(failed: bool)
    | Cancel
    | Unhook
    | Decide
    | Exit

  const RESTART_STATUS := 2
  const UNKNOWN_STATUS := -1
  const START_FAILED_STATUS := 1

  // Channel capacity one.
  predicate Room(line: Line) { |line.chan| < 1 }

  predicate Launched(s: State) { !s.main.pc.Starting? && !s.child.Absent? }

  predicate IsCancelled(pc: MainPc) { pc.Cancelled? || pc.Unhooked? || pc.Exiting? || pc.Gone? }

  // signal.Notify is registered before the process starts and stopped after the wait.
  predicate Hooked(pc: MainPc) { pc.Starting? || pc.Waiting? || pc.Returned? || pc.Cancelled? }

  predicate Leaving(pc: MainPc) { pc.Exiting? || pc.Gone? }

  /** Results that signalling the process can have in its present state. */
  predicate Possible(s: State, fate: Fate) {
    match fate
    case Delivered => s.child.Running?
    case Lost => s.child.Ended? && !s.main.reaped
    case Failed => !s.main.reaped
    case Done => s.child.Ended?
    case Skipped => s.main.reaped && s.child.Ended? && s.child.ending.Exited?
  }

  predicate Enabled(s: State, e: Event) {
    && !s.main.pc.Gone?
    && match e
       case Launch(_) => s.main.pc.Starting?
       case Poll(_) => Launched(s) && s.watch.pc.Polling?
       case StoreFlag => s.watch.pc.Mismatched?
       case WatcherSend => (s.watch.pc.SendTerm? || s.watch.pc.SendKill?) && Room(s.line)
       case WatcherTimer => s.watch.pc.AwaitTimer?
       case WatcherQuit => Launched(s) && IsCancelled(s.main.pc) && !s.watch.pc.Mismatched? && !s.watch.pc.Stopped?
       case LeaseEnds(i) => i < |s.leases| && s.leases[i].Renewing?
       case LeaseSend(i) => i < |s.leases| && (s.leases[i].WantTerm? || s.leases[i].WantKill?) && Room(s.line)
       case LeaseTimer(i) => i < |s.leases| && s.leases[i].Sleeping?
       case FromKernel(sig) => Hooked(s.main.pc) && sig != Kill
       case Take => Launched(s) && s.forwarder.pc.Receiving? && s.line.chan != []
       case Forward(fate) => s.forwarder.pc.Holding? && Possible(s, fate)
       case ChildEnds(_) => s.child.Running?
       case WaitReturns(failed) => s.main.pc.Waiting? && (failed || s.child.Ended?)
       case Cancel => s.main.pc.Returned?
       case Unhook => s.main.pc.Cancelled?
       case Decide => s.main.pc.Unhooked?
       case Exit => s.main.pc.Exiting?
  }

  function WatchNext(w: Watch, e: Event): Watch {
    match e
    case Poll(changed) => if changed then w.(pc := Mismatched, differed := true) else w
    case StoreFlag => w.(pc := SendTerm, flag := true)
    case WatcherSend => w.(pc := if w.pc.SendTerm? then AwaitTimer else Stopped)
    case WatcherTimer => w.(pc := SendKill, timedOut := true)
    case WatcherQuit => w.(pc := Stopped)
    case _ => w
  }

  function LeaseNext(pc: LeasePc, e: Event): LeasePc {
    match e
    case LeaseEnds(_) => WantTerm
    case LeaseSend(_) => if pc.WantTerm? then Sleeping else Finished
    case LeaseTimer(_) => WantKill
    case _ => pc
  }

  predicate OfLease(e: Event) { e.LeaseEnds? || e.LeaseSend? || e.LeaseTimer? }

  function LeasesNext(leases: seq<LeasePc>, e: Event): seq<LeasePc> {
    if OfLease(e) && e.i < |leases| then leases[e.i := LeaseNext(leases[e.i], e)] else leases
  }

  function ForwarderNext(f: Forwarder, chan: seq<Msg>, e: Event): Forwarder {
    match e
    case Take => if chan == [] then f else f.(pc := Holding(chan[0]))
    case Forward(fate) =>
      if !f.pc.Holding? then f
      else Forwarder(if fate.Done? || fate.Skipped? then Left else Receiving, f.handled + [Handling(f.pc.msg, fate)])
    case _ => f
  }

  function ChildNext(child: Child, e: Event): Child {
    match e
    case Launch(ok) => if ok then Running else Absent
    case ChildEnds(ending) => Ended(ending)
    case _ => child
  }

  // The exit code of the process where the wait reports one.
  function OwnStatus(child: Child, failed: bool): int {
    if !failed && child.Ended? && child.ending.Exited? then child.ending.code else UNKNOWN_STATUS
  }

  function MainNext(m: Control, child: Child, flag: bool, e: Event): Control {
    match e
    case Launch(ok) =>
      if ok then m.(pc := Waiting) else m.(pc := Exiting(START_FAILED_STATUS), own := START_FAILED_STATUS)
    case WaitReturns(failed) => m.(pc := Returned, reaped := !failed, own := OwnStatus(child, failed))
    case Cancel => m.(pc := Cancelled)
    case Unhook => m.(pc := Unhooked)
    case Decide => m.(pc := Exiting(if flag then RESTART_STATUS else m.own), seen := flag)
    case Exit => if m.pc.Exiting? then m.(pc := Gone(m.pc.status)) else m
    case _ => m
  }

  // The signal that a step sends.
  function Outgoing(s: State, e: Event): Option<Msg> {
    match e
    case WatcherSend => Some(Msg(if s.watch.pc.SendTerm? then Term else Kill, Watcher))
    case LeaseSend(i) => Some(Msg(if i < |s.leases| && s.leases[i].WantTerm? then Term else Kill, Lease(i)))
    case FromKernel(sig) => Some(Msg(sig, Kernel))
    case _ => None
  }

  // A send that finds the channel full is abandoned; only those of the kernel get this far.
  function Offer(line: Line, m: Msg): Line {
    if Room(line) then Line(line.chan + [m], line.offered + [m], line.accepted + [m], line.dropped)
    else line.(offered := line.offered + [m], dropped := line.dropped + [m])
  }

  function LineNext(line: Line, out: Option<Msg>, e: Event): Line {
    if out.Some? then Offer(line, out.value)
    else if e.Take? && line.chan != [] then line.(chan := line.chan[1..])
    else line
  }

  /** One step of one of the five participants. */
  function Apply(s: State, e: Event): State
    requires Enabled(s, e)
  {
    State(WatchNext(s.watch, e),
          LeasesNext(s.leases, e),
          ForwarderNext(s.forwarder, s.line.chan, e),
          ChildNext(s.child, e),
          MainNext(s.main, s.child, s.watch.flag, e),
          LineNext(s.line, Outgoing(s, e), e))
  }

  /** Startup, with or without a watcher and with any number of lease renewers. */
  predicate Initial(s: State) {
    && (s.watch == Watch(Polling, false, false, false) || s.watch == Watch(Stopped, false, false, false))
    && (forall i | 0 <= i < |s.leases| :: s.leases[i].Renewing?)
    && s.forwarder == Forwarder(Receiving, []) && s.child.Absent?
    && s.main.pc.Starting? && !s.main.reaped && !s.main.seen
    && s.line == Line([], [], [], [])
  }

  predicate Feasible(s: State, events: seq<Event>)
    decreases |events|
  {
    events == [] || (Enabled(s, events[0]) && Feasible(Apply(s, events[0]), events[1..]))
  }

  function After(s: State, events: seq<Event>): State
    requires Feasible(s, events)
    decreases |events|
  {
    if events == [] then s else After(Apply(s, events[0]), events[1..])
  }

  ghost predicate Reachable(s: State) {
    exists init, events :: Initial(init) && Feasible(init, events) && After(init, events) == s
  }

  // The signals of one sender, in order.
  function By(origin: Origin, msgs: seq<Msg>): seq<Sig>
    decreases |msgs|
  {
    if msgs == [] then []
    else
      By(origin, msgs[..|msgs| - 1])
      + if msgs[|msgs| - 1].origin == origin then [msgs[|msgs| - 1].sig] else []
  }

  function Messages(handled: seq<Handling>): seq<Msg> {
    seq(|handled|, i requires 0 <= i < |handled| => handled[i].msg)
  }

  // What the child received, in order.
  function Received(handled: seq<Handling>): seq<Msg>
    decreases |handled|
  {
    if handled == [] then []
    else
      Received(handled[..|handled| - 1])
      + if handled[|handled| - 1].fate.Delivered? then [handled[|handled| - 1].msg] else []
  }

  function InHand(pc: ForwarderPc): seq<Msg> {
    if pc.Holding? then [pc.msg] else []
  }

  // ----- what every step keeps -----

  predicate Legal(m: Msg) { m.origin == Kernel ==> m.sig != Kill }

  /** No signal is lost, duplicated or reordered between a sender and the forwarder. */
  predicate LineInv(line: Line, f: Forwarder) {
    && |line.chan| <= 1
    && line.accepted == Messages(f.handled) + InHand(f.pc) + line.chan
    && multiset(line.offered) == multiset(line.accepted) + multiset(line.dropped)
    && (forall m | m in line.dropped :: m.origin == Kernel)
    && (forall m | m in line.accepted :: Legal(m))
  }

  predicate WatchInv(w: Watch, sent: seq<Sig>, launched: bool) {
    && (w.flag ==> w.differed)
    && (w.timedOut ==> w.flag)
    && (!launched ==> !w.differed)
    && match w.pc
       case Polling => !w.differed && sent == []
       case Mismatched => w.differed && !w.flag && sent == []
       case SendTerm => w.flag && !w.timedOut && sent == []
       case AwaitTimer => w.flag && !w.timedOut && sent == [Term]
       case SendKill => w.timedOut && sent == [Term]
       case Stopped =>
         || (sent == [] && !w.timedOut && (w.differed ==> w.flag))
         || (sent == [Term] && w.flag)
         || (sent == [Term, Kill] && w.timedOut)
  }

  function LeaseSignals(pc: LeasePc): seq<Sig> {
    match pc
    case Renewing => []
    case WantTerm => []
    case Sleeping => [Term]
    case WantKill => [Term]
    case Finished => [Term, Kill]
  }

  ghost predicate LeaseInv(leases: seq<LeasePc>, accepted: seq<Msg>) {
    && (forall i: nat | i < |leases| :: By(Lease(i), accepted) == LeaseSignals(leases[i]))
    && (forall i: nat | |leases| <= i :: By(Lease(i), accepted) == [])
  }

  // The forwarder goes on until the first signal that finds the process gone.
  predicate ForwarderInv(f: Forwarder, child: Child) {
    && (f.pc.Left? ==> f.handled != [] && child.Ended?)
    && (child.Absent? ==> f == Forwarder(Receiving, []))
    && forall i | 0 <= i < |f.handled| ::
         (f.handled[i].fate.Done? || f.handled[i].fate.Skipped?) <==> (f.pc.Left? && i == |f.handled| - 1)
  }

  predicate MainInv(m: Control, child: Child, flag: bool) {
    && (m.pc.Starting? ==> child.Absent?)
    && (child.Absent? ==> m.pc.Starting? || (Leaving(m.pc) && m.own == START_FAILED_STATUS && !m.seen))
    && (m.reaped ==> child.Ended? && !m.pc.Waiting? && m.own == OwnStatus(child, false))
    && (!m.reaped && !m.pc.Starting? && !m.pc.Waiting? && !child.Absent? ==> m.own == UNKNOWN_STATUS)
    && (Leaving(m.pc) ==> m.pc.status == if m.seen then RESTART_STATUS else m.own)
    && (m.seen ==> flag && Leaving(m.pc))
  }

  predicate ReachedChild(origin: Origin, handled: seq<Handling>) {
    By(origin, Received(handled)) != []
  }

  // A restart signal reaches the child only when the flag is up, which main then sees.
  predicate FlagInv(s: State) {
    && (ReachedChild(Watcher, s.forwarder.handled) ==> s.watch.flag)
    && (ReachedChild(Watcher, s.forwarder.handled) && s.main.reaped && Leaving(s.main.pc) ==> s.main.seen)
  }

  ghost predicate Inv(s: State) {
    && LineInv(s.line, s.forwarder)
    && WatchInv(s.watch, By(Watcher, s.line.accepted), Launched(s))
    && LeaseInv(s.leases, s.line.accepted)
    && ForwarderInv(s.forwarder, s.child)
    && MainInv(s.main, s.child, s.watch.flag)
    && FlagInv(s)
  }

  lemma ByAppend(origin: Origin, msgs: seq<Msg>, m: Msg)
    ensures By(origin, msgs + [m]) == By(origin, msgs) + if m.origin == origin then [m.sig] else []
  {
    assert (msgs + [m])[..|msgs|] == msgs;
  }

  lemma LinePush(line: Line, f: Forwarder, m: Msg)
    requires LineInv(line, f) && Legal(m) && (Room(line) || m.origin == Kernel)
    ensures LineInv(Offer(line, m), f)
  {
    if Room(line) {
      assert line.chan + [m] == [m];
      assert line.accepted + [m] == Messages(f.handled) + InHand(f.pc) + (line.chan + [m]);
    }
  }

  lemma LineTake(line: Line, f: Forwarder)
    requires LineInv(line, f) && f.pc.Receiving? && line.chan != []
    ensures LineInv(line.(chan := line.chan[1..]), f.(pc := Holding(line.chan[0])))
  {
    assert line.accepted == Messages(f.handled) + [line.chan[0]] + line.chan[1..];
  }

  lemma LineForward(line: Line, f: Forwarder, fate: Fate, next: ForwarderPc)
    requires LineInv(line, f) && f.pc.Holding? && !next.Holding?
    ensures LineInv(line, Forwarder(next, f.handled + [Handling(f.pc.msg, fate)]))
  {
    assert Messages(f.handled + [Handling(f.pc.msg, fate)]) == Messages(f.handled) + [f.pc.msg];
    assert line.accepted == Messages(f.handled) + [f.pc.msg] + [] + line.chan;
  }

  lemma LineStep(s: State, e: Event)
    requires LineInv(s.line, s.forwarder) && Enabled(s, e)
    ensures LineInv(Apply(s, e).line, Apply(s, e).forwarder)
  {
    var out := Outgoing(s, e);
    if out.Some? {
      LinePush(s.line, s.forwarder, out.value);
    } else if e.Take? {
      LineTake(s.line, s.forwarder);
    } else if e.Forward? {
      LineForward(s.line, s.forwarder, e.fate, Apply(s, e).forwarder.pc);
    }
  }

  lemma SentStep(s: State, e: Event, origin: Origin)
    requires Enabled(s, e)
    ensures By(origin, Apply(s, e).line.accepted) == By(origin, s.line.accepted)
      + match Outgoing(s, e) case None => [] case Some(m) => if m.origin == origin && Room(s.line) then [m.sig] else []
  {
    if Outgoing(s, e).Some? {
      ByAppend(origin, s.line.accepted, Outgoing(s, e).value);
    }
  }

  lemma WatchStep(s: State, e: Event)
    requires WatchInv(s.watch, By(Watcher, s.line.accepted), Launched(s))
    requires MainInv(s.main, s.child, s.watch.flag) && Enabled(s, e)
    ensures WatchInv(Apply(s, e).watch, By(Watcher, Apply(s, e).line.accepted), Launched(Apply(s, e)))
  {
    SentStep(s, e, Watcher);
  }

  lemma LeasesMove(leases: seq<LeasePc>, before: seq<Msg>, after: seq<Msg>, e: Event, sent: seq<Sig>)
    requires LeaseInv(leases, before)
    requires OfLease(e) ==>
      e.i < |leases| && LeaseSignals(LeaseNext(leases[e.i], e)) == LeaseSignals(leases[e.i]) + sent
    requires forall i: nat :: By(Lease(i), after) == By(Lease(i), before) + if OfLease(e) && e.i == i then sent else []
    ensures LeaseInv(LeasesNext(leases, e), after)
  {
  }

  lemma LeaseStep(s: State, e: Event)
    requires LeaseInv(s.leases, s.line.accepted) && Enabled(s, e)
    ensures LeaseInv(Apply(s, e).leases, Apply(s, e).line.accepted)
  {
    hide By;
    var sent := if e.LeaseSend? then [Outgoing(s, e).value.sig] else [];
    forall i: nat
      ensures By(Lease(i), Apply(s, e).line.accepted) ==
        By(Lease(i), s.line.accepted) + if OfLease(e) && e.i == i then sent else []
    {
      SentStep(s, e, Lease(i));
    }
    LeasesMove(s.leases, s.line.accepted, Apply(s, e).line.accepted, e, sent);
  }

  lemma ForwarderStep(s: State, e: Event)
    requires ForwarderInv(s.forwarder, s.child) && MainInv(s.main, s.child, s.watch.flag) && Enabled(s, e)
    ensures ForwarderInv(Apply(s, e).forwarder, Apply(s, e).child)
  {
  }

  lemma MainStep(s: State, e: Event)
    requires MainInv(s.main, s.child, s.watch.flag) && Enabled(s, e)
    ensures MainInv(Apply(s, e).main, Apply(s, e).child, Apply(s, e).watch.flag)
  {
  }

  lemma InMessages(line: Line, f: Forwarder)
    requires LineInv(line, f) && f.pc.Holding?
    ensures f.pc.msg in line.accepted
  {
    assert line.accepted[|f.handled|] == f.pc.msg;
  }

  lemma ByFinds(origin: Origin, msgs: seq<Msg>, m: Msg)
    requires m in msgs && m.origin == origin
    ensures By(origin, msgs) != []
  {
    if m != msgs[|msgs| - 1] { assert m in msgs[..|msgs| - 1]; }
  }

  lemma ReceivedAppend(origin: Origin, handled: seq<Handling>, h: Handling)
    ensures ReachedChild(origin, handled + [h])
      <==> ReachedChild(origin, handled) || (h.fate.Delivered? && h.msg.origin == origin)
  {
    assert (handled + [h])[..|handled|] == handled;
    if h.fate.Delivered? {
      ByAppend(origin, Received(handled), h.msg);
    } else {
      assert Received(handled) + [] == Received(handled);
    }
  }

  // A watcher signal in the forwarder's hand means that the flag is up.
  lemma HeldImpliesFlag(line: Line, f: Forwarder, w: Watch, launched: bool)
    requires LineInv(line, f) && WatchInv(w, By(Watcher, line.accepted), launched)
    requires f.pc.Holding? && f.pc.msg.origin == Watcher
    ensures w.flag
  {
    InMessages(line, f);
    ByFinds(Watcher, line.accepted, f.pc.msg);
  }

  lemma FlagStep(s: State, e: Event)
    requires Inv(s) && Enabled(s, e)
    ensures FlagInv(Apply(s, e))
  {
    if e.Forward? {
      ReceivedAppend(Watcher, s.forwarder.handled, Handling(s.forwarder.pc.msg, e.fate));
      if s.forwarder.pc.msg.origin == Watcher {
        HeldImpliesFlag(s.line, s.forwarder, s.watch, Launched(s));
      }
    }
  }

  lemma InvStep(s: State, e: Event)
    requires Inv(s) && Enabled(s, e)
    ensures Inv(Apply(s, e))
  {
    LineStep(s, e);
    WatchStep(s, e);
    LeaseStep(s, e);
    ForwarderStep(s, e);
    MainStep(s, e);
    FlagStep(s, e);
  }

  /** Every state of every interleaving satisfies the invariant. */
  lemma {:induction false} InvRun(s: State, events: seq<Event>)
    requires Inv(s) && Feasible(s, events)
    ensures Inv(After(s, events))
    decreases |events|
  {
    if events != [] {
      InvStep(s, events[0]);
      InvRun(Apply(s, events[0]), events[1..]);
    }
  }

  lemma InvReachable(s: State)
    requires Reachable(s)
    ensures Inv(s)
  {
    var init, events :| Initial(init) && Feasible(init, events) && After(init, events) == s;
    InvRun(init, events);
  }

  // ----- consequences for every interleaving -----

  /** The channel holds at most one signal; what was accepted is, in order, what was handled, then
      what the forwarder holds, then what is in the channel; only the kernel's signals are ever
      dropped, and never a SIGKILL comes from there. */
  lemma SignalsConserved(s: State)
    requires Reachable(s)
    ensures |s.line.chan| <= 1
    ensures s.line.accepted == Messages(s.forwarder.handled) + InHand(s.forwarder.pc) + s.line.chan
    ensures multiset(s.line.offered) == multiset(s.line.accepted) + multiset(s.line.dropped)
    ensures forall m | m in s.line.dropped :: m.origin == Kernel
    ensures forall m | m in s.line.accepted && m.sig == Kill :: m.origin != Kernel
  {
    InvReachable(s);
  }

  predicate TermThenKill(sent: seq<Sig>) {
    sent == [] || sent == [Term] || sent == [Term, Kill]
  }

  lemma WatcherOrder(w: Watch, sent: seq<Sig>, launched: bool)
    requires WatchInv(w, sent, launched)
    ensures TermThenKill(sent) && (Kill in sent ==> w.timedOut)
  {
  }

  lemma LeaseOrder(leases: seq<LeasePc>, accepted: seq<Msg>, i: nat)
    requires LeaseInv(leases, accepted)
    ensures TermThenKill(By(Lease(i), accepted))
    ensures Kill in By(Lease(i), accepted) ==> i < |leases| && (leases[i].WantKill? || leases[i].Finished?)
  {
    if i < |leases| { assert By(Lease(i), accepted) == LeaseSignals(leases[i]); }
  }

  lemma {:induction false} TimersRun(s: State, events: seq<Event>, i: nat)
    requires Feasible(s, events)
    ensures |After(s, events).leases| == |s.leases|
    ensures After(s, events).watch.timedOut ==> s.watch.timedOut || WatcherTimer in events
    ensures i < |s.leases| && (After(s, events).leases[i].WantKill? || After(s, events).leases[i].Finished?) ==>
      s.leases[i].WantKill? || s.leases[i].Finished? || LeaseTimer(i) in events
    decreases |events|
  {
    if events != [] {
      var t := Apply(s, events[0]);
      TimersRun(t, events[1..], i);
      assert events[0] in events && forall e | e in events[1..] :: e in events;
    }
  }

  lemma InitialInv(init: State)
    requires Initial(init)
    ensures Inv(init)
  {
  }

  /** In every run the watcher and each renewer send SIGTERM and then SIGKILL, each at most once, and
      the second only after its own timer. */
  lemma SendersDiscipline(init: State, events: seq<Event>, i: nat)
    requires Initial(init) && Feasible(init, events)
    ensures var accepted := After(init, events).line.accepted;
      && TermThenKill(By(Watcher, accepted)) && (Kill in By(Watcher, accepted) ==> WatcherTimer in events)
      && TermThenKill(By(Lease(i), accepted)) && (Kill in By(Lease(i), accepted) ==> LeaseTimer(i) in events)
  {
    InitialInv(init);
    InvRun(init, events);
    TimersRun(init, events, i);
    hide After, Inv, By;
    var s := After(init, events);
    WatcherOrder(s.watch, By(Watcher, s.line.accepted), Launched(s));
    LeaseOrder(s.leases, s.line.accepted, i);
  }

  /** A signal of the watcher exists, in the channel or beyond, only once a poll differed and the
      restart flag is up. */
  lemma SignalImpliesFlag(s: State, m: Msg)
    requires Reachable(s) && m in s.line.accepted && m.origin == Watcher
    ensures s.watch.flag && s.watch.differed
  {
    InvReachable(s);
    ByFinds(Watcher, s.line.accepted, m);
  }

  // The flag was raised before main made up its mind.
  predicate FlagBeforeDecision(events: seq<Event>) {
    exists i, j :: 0 <= i < j < |events| && events[i] == StoreFlag && events[j] == Decide
  }

  lemma FlagBeforeSplit(e: Event, later: seq<Event>)
    ensures FlagBeforeDecision([e] + later) <==> (e == StoreFlag && Decide in later) || FlagBeforeDecision(later)
  {
    var events := [e] + later;
    if FlagBeforeDecision(later) {
      var i, j :| 0 <= i < j < |later| && later[i] == StoreFlag && later[j] == Decide;
      assert events[i + 1] == StoreFlag && events[j + 1] == Decide;
    }
    if e == StoreFlag && Decide in later {
      var j :| 0 <= j < |later| && later[j] == Decide;
      assert events[0] == StoreFlag && events[j + 1] == Decide;
    }
    if FlagBeforeDecision(events) {
      var i, j :| 0 <= i < j < |events| && events[i] == StoreFlag && events[j] == Decide;
      assert later[j - 1] == Decide;
      assert i > 0 ==> later[i - 1] == StoreFlag;
    }
  }

  lemma {:induction false} NoSecondThought(s: State, events: seq<Event>)
    requires Feasible(s, events) && Leaving(s.main.pc)
    ensures Decide !in events && !FlagBeforeDecision(events)
    ensures After(s, events).main.seen == s.main.seen
    decreases |events|
  {
    if events != [] {
      NoSecondThought(Apply(s, events[0]), events[1..]);
      assert events == [events[0]] + events[1..];
    }
  }

  lemma {:induction false} SeenExactly(s: State, events: seq<Event>)
    requires Feasible(s, events) && !Leaving(s.main.pc) && !s.main.seen
    ensures After(s, events).main.seen <==> (s.watch.flag && Decide in events) || FlagBeforeDecision(events)
    decreases |events|
  {
    if events != [] {
      var e, later := events[0], events[1..];
      var t := Apply(s, e);
      FlagBeforeSplit(e, later);
      assert events == [e] + later;
      if Leaving(t.main.pc) {
        NoSecondThought(t, later);
      } else {
        SeenExactly(t, later);
      }
    }
  }

  // What a run says about the start of the process and the wait for it.
  lemma {:induction false} StartAndWait(s: State, events: seq<Event>)
    requires Feasible(s, events) && (s.main.pc.Starting? ==> s.child.Absent?)
    requires s.main.pc.Starting? || s.main.pc.Waiting? ==> !s.main.reaped
    ensures After(s, events).child.Absent? <==> s.child.Absent? && Launch(true) !in events
    ensures After(s, events).main.reaped <==> s.main.reaped || WaitReturns(false) in events
    decreases |events|
  {
    if events != [] {
      assert events == [events[0]] + events[1..];
      StartAndWait(Apply(s, events[0]), events[1..]);
    }
  }

  /** How main leaves, for every run: with 2 if and only if the flag was raised before main decided,
      and else with the status of the process: 1 if it was never started, -1 if the wait for it failed
      or a signal ended it.  The flag was raised in time if a signal of the watcher reached the process
      before its end was reported, and not if no poll ever differed. */
  lemma OutcomeMeaning(init: State, events: seq<Event>)
    requires Initial(init) && Feasible(init, events) && Leaving(After(init, events).main.pc)
    ensures var s := After(init, events);
      && s.main.pc.status == (if FlagBeforeDecision(events) then 2 else s.main.own)
      && (s.main.pc.status == 2 <==> FlagBeforeDecision(events) || s.main.own == 2)
      && (s.main.reaped && By(Watcher, Received(s.forwarder.handled)) != [] ==> FlagBeforeDecision(events))
      && (FlagBeforeDecision(events) ==> Poll(true) in events)
      && (Launch(true) !in events ==> s.main.pc.status == 1)
      && (s.main.reaped <==> WaitReturns(false) in events)
      && (Launch(true) in events && !s.main.reaped ==> s.main.own == -1)
      && (s.main.reaped ==>
            s.child.Ended? && s.main.own == match s.child.ending case Exited(code) => code case Signalled => -1)
  {
    InitialInv(init);
    InvRun(init, events);
    SeenExactly(init, events);
    StartAndWait(init, events);
    if Poll(true) !in events { NoDifference(init, events); }
  }

  function RaisedBy(e: Event): seq<Sig> { if e.FromKernel? then [e.sig] else [] }

  // The signals that the kernel raised in a run, in order.
  function Raised(events: seq<Event>): seq<Sig>
    decreases |events|
  {
    if events == [] then []
    else RaisedBy(events[0]) + Raised(events[1..])
  }

  /** Every signal of the kernel is offered to the process as the signal that it is, in order. */
  lemma {:induction false} KernelSignals(s: State, events: seq<Event>)
    requires Feasible(s, events)
    ensures By(Kernel, After(s, events).line.offered) == By(Kernel, s.line.offered) + Raised(events)
    decreases |events|
  {
    if events != [] {
      var t := Apply(s, events[0]);
      OfferedStep(s, events[0]);
      assert Raised(events) == RaisedBy(events[0]) + Raised(events[1..]);
      assert After(s, events) == After(t, events[1..]);
      hide By, Apply, Enabled, RaisedBy;
      KernelSignals(t, events[1..]);
    }
  }

  lemma OfferedStep(s: State, e: Event)
    requires Enabled(s, e)
    ensures By(Kernel, Apply(s, e).line.offered) == By(Kernel, s.line.offered) + RaisedBy(e)
  {
    if Outgoing(s, e).Some? { ByAppend(Kernel, s.line.offered, Outgoing(s, e).value); }
  }

  lemma {:induction false} NoDifference(s: State, events: seq<Event>)
    requires Feasible(s, events) && !s.watch.differed && Poll(true) !in events
    ensures !After(s, events).watch.differed
    decreases |events|
  {
    if events != [] {
      assert events[0] in events && forall e | e in events[1..] :: e in events;
      NoDifference(Apply(s, events[0]), events[1..]);
    }
  }

  /** As long as no poll sees a change, the watcher sends nothing, and main leaves with the status
      of the process. */
  lemma UnchangedLeavesAlone(init: State, events: seq<Event>)
    requires Initial(init) && Feasible(init, events) && Poll(true) !in events
    ensures By(Watcher, After(init, events).line.accepted) == [] && !After(init, events).watch.flag
    ensures Leaving(After(init, events).main.pc) ==> After(init, events).main.pc.status == After(init, events).main.own
  {
    InitialInv(init);
    InvRun(init, events);
    NoDifference(init, events);
  }

  /** After the cancellation the watcher can always finish on its own, sending nothing, whatever
      the channel, the forwarder and the others do. */
  lemma WatcherCanStop(s: State) returns (events: seq<Event>)
    requires Launched(s) && IsCancelled(s.main.pc) && !s.main.pc.Gone?
    ensures |events| <= 2 && (forall e | e in events :: e == StoreFlag || e == WatcherQuit)
    ensures Feasible(s, events) && After(s, events).watch.pc == Stopped
    ensures After(s, events).line == s.line && After(s, events).main == s.main
  {
    if s.watch.pc.Stopped? {
      events := [];
    } else if s.watch.pc.Mismatched? {
      var t := Apply(s, StoreFlag);
      events := [StoreFlag, WatcherQuit];
      assert events[1..] == [WatcherQuit] && [WatcherQuit][1..] == [];
      assert Enabled(t, WatcherQuit) && Feasible(Apply(t, WatcherQuit), []);
      assert After(t, [WatcherQuit]) == Apply(t, WatcherQuit);
    } else {
      events := [WatcherQuit];
      assert events[1..] == [] && Feasible(Apply(s, WatcherQuit), []);
    }
  }

  // The wait has reported the end of the process.
  predicate Reaped(s: State) {
    s.main.reaped && s.child.Ended? && !s.main.pc.Starting? && !s.main.pc.Waiting?
  }

  lemma {:induction false} AfterOneMore(s: State, events: seq<Event>, e: Event)
    requires Feasible(s, events) && Enabled(After(s, events), e)
    ensures Feasible(s, events + [e]) && After(s, events + [e]) == Apply(After(s, events), e)
    decreases |events|
  {
    if events == [] {
      assert [e][1..] == [] && Feasible(Apply(s, e), []);
    } else {
      AfterOneMore(Apply(s, events[0]), events[1..], e);
      assert (events + [e])[1..] == events[1..] + [e];
    }
  }

  predicate IsWaiting(pc: LeasePc) { pc.WantTerm? || pc.WantKill? }

  /** The channel is full and will not be emptied: the forwarder has left, or leaves with the signal it
      holds because the process is reaped, or was never started because the process was not. */
  predicate Clogged(s: State) {
    && |s.line.chan| == 1
    && (|| s.forwarder.pc.Left?
        || (s.forwarder.pc.Holding? && Reaped(s))
        || (s.child.Absent? && !s.main.pc.Starting?))
  }

  lemma CloggedStep(s: State, e: Event, i: nat)
    requires Clogged(s) && Enabled(s, e) && i < |s.leases| && IsWaiting(s.leases[i])
    ensures Clogged(Apply(s, e)) && i < |Apply(s, e).leases| && Apply(s, e).leases[i] == s.leases[i]
  {
  }

  lemma {:induction false} CloggedStays(s: State, events: seq<Event>, i: nat)
    requires Clogged(s) && Feasible(s, events) && i < |s.leases| && IsWaiting(s.leases[i])
    ensures Clogged(After(s, events)) && i < |After(s, events).leases| && After(s, events).leases[i] == s.leases[i]
    decreases |events|
  {
    if events != [] {
      CloggedStep(s, events[0], i);
      CloggedStays(Apply(s, events[0]), events[1..], i);
    }
  }

  // What is used of the invariant.
  predicate Orderly(s: State) {
    && |s.line.chan| <= 1
    && (s.child.Absent? ==> s.forwarder.pc.Receiving?)
    && (s.main.pc.Starting? ==> s.child.Absent?)
    && (s.main.reaped ==> Reaped(s))
  }

  lemma OrderlyReachable(s: State)
    requires Reachable(s)
    ensures Orderly(s)
  {
    InvReachable(s);
  }

  lemma TakeFrees(s: State, i: nat)
    requires Orderly(s) && Enabled(s, Take) && i < |s.leases| && IsWaiting(s.leases[i])
    ensures Apply(s, Take).leases == s.leases && Enabled(Apply(s, Take), LeaseSend(i))
  {
  }

  // The forwarder gets rid of the signal it holds, or is started.
  lemma MakesReady(s: State) returns (e: Event)
    requires Orderly(s) && !s.main.pc.Gone? && !Clogged(s) && |s.line.chan| == 1 && !Enabled(s, Take)
    ensures Enabled(s, e) && Enabled(Apply(s, e), Take)
    ensures Apply(s, e).leases == s.leases && Orderly(Apply(s, e))
  {
    if s.forwarder.pc.Holding? {
      e := Forward(if s.child.Running? then Delivered else Failed);
    } else {
      e := Launch(true);
    }
  }

  lemma SendMoves(s: State, i: nat)
    requires Enabled(s, LeaseSend(i))
    ensures i < |Apply(s, LeaseSend(i)).leases| == |s.leases|
    ensures Apply(s, LeaseSend(i)).leases[i] != s.leases[i]
  {
  }

  lemma RoomSends(s: State, i: nat)
    requires !s.main.pc.Gone? && s.line.chan == [] && i < |s.leases| && IsWaiting(s.leases[i])
    ensures Enabled(s, LeaseSend(i))
  {
  }

  // What stands between a waiting renewer and its send.
  lemma Unclogged(s: State, i: nat) returns (events: seq<Event>)
    requires Orderly(s) && !s.main.pc.Gone? && !Clogged(s) && i < |s.leases| && IsWaiting(s.leases[i])
    ensures Feasible(s, events) && After(s, events).leases == s.leases && Enabled(After(s, events), LeaseSend(i))
  {
    events := [];
    assert Feasible(s, []) && After(s, []) == s;
    if s.line.chan == [] {
      RoomSends(s, i);
    } else {
      var t := s;
      if !Enabled(s, Take) {
        var e := MakesReady(s);
        AfterOneMore(s, [], e);
        t, events := Apply(s, e), [] + [e];
      }
      hide Apply, Enabled, Feasible, After, Clogged;
      TakeFrees(t, i);
      AfterOneMore(s, events, Take);
      events := events + [Take];
    }
  }

  /** A renewer has no such way out, and when it is stuck is known exactly: a renewer that wants to
      send can move on in some continuation if and only if the channel is not clogged. */
  lemma RenewerBlockedExactly(s: State, i: nat)
    requires Reachable(s) && !s.main.pc.Gone? && i < |s.leases| && IsWaiting(s.leases[i])
    ensures (exists events ::
               Feasible(s, events) && i < |After(s, events).leases| && After(s, events).leases[i] != s.leases[i])
      <==> !Clogged(s)
  {
    OrderlyReachable(s);
    hide Apply, Enabled, Feasible, After, Reachable, Clogged, Orderly;
    if Clogged(s) {
      forall events | Feasible(s, events)
        ensures i < |After(s, events).leases| && After(s, events).leases[i] == s.leases[i]
      {
        CloggedStays(s, events, i);
      }
    } else {
      var events := Unclogged(s, i);
      AfterOneMore(s, events, LeaseSend(i));
      SendMoves(After(s, events), i);
      assert After(s, events + [LeaseSend(i)]).leases[i] != s.leases[i];
    }
  }

  lemma ReapedReachable(s: State)
    requires Reachable(s) && s.main.reaped
    ensures Reaped(s)
  {
    InvReachable(s);
  }

  lemma ReapedStep(s: State, e: Event)
    requires Reaped(s) && Enabled(s, e)
    ensures Reaped(Apply(s, e))
    ensures Received(Apply(s, e).forwarder.handled) == Received(s.forwarder.handled)
    ensures s.forwarder.pc.Left? ==> Apply(s, e).forwarder == s.forwarder
    ensures Apply(s, e).forwarder.handled != s.forwarder.handled ==>
      Apply(s, e).forwarder.pc.Left? && |Apply(s, e).forwarder.handled| == |s.forwarder.handled| + 1
  {
    if e.Forward? {
      var handled := s.forwarder.handled + [Handling(s.forwarder.pc.msg, e.fate)];
      assert handled[..|handled| - 1] == s.forwarder.handled;
    }
  }

  lemma {:induction false} NothingFromReaped(s: State, events: seq<Event>)
    requires Reaped(s) && Feasible(s, events)
    ensures Received(After(s, events).forwarder.handled) == Received(s.forwarder.handled)
    ensures |After(s, events).forwarder.handled| <= |s.forwarder.handled| + if s.forwarder.pc.Left? then 0 else 1
    decreases |events|
  {
    if events != [] {
      ReapedStep(s, events[0]);
      NothingFromReaped(Apply(s, events[0]), events[1..]);
    }
  }

  /** Once the process is reaped nothing more reaches it, and the forwarder takes note of at most
      one more signal before it leaves. */
  lemma NothingAfterReaping(s: State, events: seq<Event>)
    requires Reachable(s) && s.main.reaped && Feasible(s, events)
    ensures Received(After(s, events).forwarder.handled) == Received(s.forwarder.handled)
    ensures |After(s, events).forwarder.handled| <= |s.forwarder.handled| + if s.forwarder.pc.Left? then 0 else 1
  {
    ReapedReachable(s);
    NothingFromReaped(s, events);
  }

  lemma ReachableStep(s: State, e: Event)
    requires Reachable(s) && Enabled(s, e)
    ensures Reachable(Apply(s, e))
  {
    var init, events :| Initial(init) && Feasible(init, events) && After(init, events) == s;
    AfterOneMore(init, events, e);
    assert Initial(init) && Feasible(init, events + [e]) && After(init, events + [e]) == Apply(s, e);
  }

  lemma Launches(watch: Watch, leases: seq<LeasePc>) returns (s: State)
    requires watch == Watch(Polling, false, false, false) || watch == Watch(Stopped, false, false, false)
    requires forall i | 0 <= i < |leases| :: leases[i].Renewing?
    ensures Reachable(s)
    ensures s == State(watch, leases, Forwarder(Receiving, []), Running,
                       Control(Waiting, false, 0, false), Line([], [], [], []))
  {
    s := State(watch, leases, Forwarder(Receiving, []), Absent,
               Control(Starting, false, 0, false), Line([], [], [], []));
    assert Initial(s) && Feasible(s, []) && After(s, []) == s;
    ReachableStep(s, Launch(true));
    s := Apply(s, Launch(true));
  }

  // A poll sees a change just before the process ends by itself.
  lemma EndsBeforeFlag(own: int) returns (s: State)
    ensures Reachable(s)
    ensures s == State(Watch(Mismatched, false, true, false), [], Forwarder(Receiving, []), Ended(Exited(own)),
                       Control(Waiting, false, 0, false), Line([], [], [], []))
  {
    s := Launches(Watch(Polling, false, false, false), []);
    ReachableStep(s, Poll(true));
    s := Apply(s, Poll(true));
    ReachableStep(s, ChildEnds(Exited(own)));
    s := Apply(s, ChildEnds(Exited(own)));
  }

  lemma DecidesBeforeFlag(own: int) returns (s: State)
    ensures Reachable(s)
    ensures s == State(Watch(Mismatched, false, true, false), [], Forwarder(Receiving, []), Ended(Exited(own)),
                       Control(Exiting(own), true, own, false), Line([], [], [], []))
  {
    s := EndsBeforeFlag(own);
    ReachableStep(s, WaitReturns(false));
    s := Apply(s, WaitReturns(false));
    ReachableStep(s, Cancel);
    s := Apply(s, Cancel);
    ReachableStep(s, Unhook);
    s := Apply(s, Unhook);
    ReachableStep(s, Decide);
    s := Apply(s, Decide);
  }

  /** That a poll differed and the flag was raised does not suffice: if main decided first, the change
      is lost, and main leaves with the status of the process. */
  lemma ChangeCanBeLost(own: int) returns (s: State)
    ensures Reachable(s) && s.main.pc == Gone(own) && s.watch.flag && By(Watcher, s.line.accepted) == [Term]
  {
    s := DecidesBeforeFlag(own);
    ReachableStep(s, StoreFlag);
    s := Apply(s, StoreFlag);
    ReachableStep(s, WatcherSend);
    s := Apply(s, WatcherSend);
    ReachableStep(s, Exit);
    s := Apply(s, Exit);
    ByAppend(Watcher, [], Msg(Term, Watcher));
  }

  // A signal is in the forwarder's hand.
  lemma ForwarderHolds() returns (s: State)
    ensures Reachable(s) && s.leases == [Renewing] && s.child == Running && s.main.pc == Waiting && !s.main.reaped
    ensures s.forwarder.pc == Holding(Msg(Int, Kernel)) && s.line.chan == []
  {
    s := Launches(Watch(Stopped, false, false, false), [Renewing]);
    ReachableStep(s, FromKernel(Int));
    s := Apply(s, FromKernel(Int));
    ReachableStep(s, Take);
    s := Apply(s, Take);
  }

  // It meets the end of the process, and the forwarder leaves.
  lemma ForwarderLeaves(own: int) returns (s: State)
    ensures Reachable(s) && s.leases == [Renewing] && s.main.pc == Waiting && s.forwarder.pc == Left
    ensures s.line.chan == []
  {
    s := ForwarderHolds();
    ReachableStep(s, ChildEnds(Exited(own)));
    s := Apply(s, ChildEnds(Exited(own)));
    ReachableStep(s, Forward(Done));
    s := Apply(s, Forward(Done));
  }

  /** Such a state is reached: the process ends, the forwarder leaves, one more signal of the kernel
      fills the channel, and a lease ends. */
  lemma RenewerCanBlock(own: int) returns (s: State)
    ensures Reachable(s) && !s.main.pc.Gone? && s.leases == [WantTerm] && Clogged(s)
  {
    s := ForwarderLeaves(own);
    ReachableStep(s, FromKernel(Term));
    s := Apply(s, FromKernel(Term));
    ReachableStep(s, LeaseEnds(0));
    s := Apply(s, LeaseEnds(0));
  }
}
