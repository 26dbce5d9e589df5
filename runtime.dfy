/** Actor.kt and ActorSystem.kt: actors and their system as objects whose
    fields the operations update in place.

    Effects that reach several actors (a send that falls back to the
    dead-letter actor, the shutdown broadcast, the `Terminated`
    notifications) are specified against pure functions on a World, the
    states of a set of actors. Methods take that set as a ghost frame `F`.
    The thread-local "current actor" of the calling thread is the explicit
    parameter `current`. */
module Runtime {

  import opened Wrappers
  import opened Errors
  import opened Messages
  import opened References
  import NameSpace
  import M = Mailbox

  type ActorRef = Ref<Actor>
  type Env = Envelope<ActorRef>
  type ActorState = M.ActorState<Actor, ActorSystem>
  type World = map<Actor, ActorState>

  /** The world after an operation, and whether it raised. */
  datatype Effect = Effect(world: World, outcome: Outcome<Error>)

  // ---------------------------------------------------------------------
  // Pure meaning of the operations that reach several actors
  // ---------------------------------------------------------------------

  /** `w` holds `a` and, once `a` knows its system, that system's
      dead-letter actor. */
  predicate Covers(w: World, a: Actor)
  {
    a in w && (w[a].system.Some? ==> w[a].system.value.deadLetterActor in w)
  }

  /** `w'` differs from `w` at most in the inboxes. */
  predicate OnlyInboxes(w: World, w': World)
  {
    w'.Keys == w.Keys && forall a :: a in w ==> w'[a] == w[a].(inbox := w'[a].inbox)
  }

  /** Every inbox of `w` is a prefix of its counterpart in `w'`. */
  predicate InboxesGrow(w: World, w': World)
  {
    forall a :: a in w ==> a in w' && w[a].inbox <= w'[a].inbox
  }

  lemma CoversKept(w: World, w': World, a: Actor)
    requires OnlyInboxes(w, w') && Covers(w, a)
    ensures Covers(w', a)
  {
    assert w'[a].system == w[a].system;
  }

  /** `ActorSystem.deadLetter(m)` of the system whose dead-letter actor is
      `dl`: an already wrapped message is dropped; anything else is wrapped
      once and sent to `dl` by the calling thread's current actor. A
      stopped `dl` hands the wrapped message back to `deadLetter`, which
      drops it. */
  function DeadLetterSpec(w: World, dl: Actor, m: Msg, current: ActorRef): (e: Effect)
    requires dl in w
    ensures m.DeadLetter? ==> e == Effect(w, Pass)
    ensures !m.DeadLetter? && w[dl].running ==>
              e == Effect(w[dl := M.Enqueue(w[dl], Envelope(Msg.DeadLetter(m), current))], Pass)
    ensures !w[dl].running ==> e.world == w
  {
    if m.DeadLetter? then Effect(w, Pass)
    else if w[dl].running then Effect(w[dl := M.Enqueue(w[dl], Envelope(Msg.DeadLetter(m), current))], Pass)
    else if w[dl].system.None? then Effect(w, Fail(Uninitialized))
    else Effect(w, Pass)
  }

  /** `Actor.send(message, sender)` on `a`: queued while `a` runs,
      dead-lettered through `a`'s system otherwise; an actor that was never
      started has no system to ask. */
  function SendSpec(w: World, a: Actor, env: Env, current: ActorRef): (e: Effect)
    requires Covers(w, a)
    ensures w[a].running ==> e == Effect(w[a := M.Enqueue(w[a], env)], Pass)
    ensures !w[a].running ==> a in e.world && e.world[a] == w[a]
    ensures e.outcome.Fail? ==> e.world == w
  {
    if w[a].running then Effect(w[a := M.Enqueue(w[a], env)], Pass)
    else if w[a].system.None? then Effect(w, Fail(Uninitialized))
    else DeadLetterSpec(w, w[a].system.value.deadLetterActor, env.message, current)
  }

  /** A send changes inboxes only. */
  lemma SendKeepsShape(w: World, a: Actor, env: Env, current: ActorRef)
    requires Covers(w, a)
    ensures OnlyInboxes(w, SendSpec(w, a, env, current).world)
  {
  }

  predicate CoversAll(w: World, targets: seq<ActorRef>)
  {
    forall i :: 0 <= i < |targets| ==> Covers(w, targets[i].actor)
  }

  /** `targets.forEach { it.send(env.message, env.sender) }`: the first
      failure propagates and the remaining targets are not reached. */
  function SendAll(w: World, targets: seq<ActorRef>, env: Env, current: ActorRef): (e: Effect)
    requires CoversAll(w, targets)
    ensures targets == [] ==> e == Effect(w, Pass)
    ensures |targets| == 1 ==> e == SendSpec(w, targets[0].actor, env, current)
    decreases |targets|
  {
    if targets == [] then Effect(w, Pass)
    else
      var first := SendSpec(w, targets[0].actor, env, current);
      if first.outcome.Fail? then first
      else
        SendKeepsShape(w, targets[0].actor, env, current);
        assert CoversAll(first.world, targets[1..]) by {
          forall i | 0 <= i < |targets[1..]| ensures Covers(first.world, targets[1..][i].actor) {
            CoversKept(w, first.world, targets[1..][i].actor);
          }
        }
        SendAll(first.world, targets[1..], env, current)
  }

  /** The `finally` block of an actor's thread: the thread ends and every
      watcher, in insertion order, is sent `Terminated` by the actor itself
      (on its own thread the current actor is `self`). */
  function ExitSpec(w: World, a: Actor): (e: Effect)
    requires a in w && w[a].self.Some? && CoversAll(w, w[a].watchers)
    ensures e.world.Keys == w.Keys
    ensures e.world[a].thread == M.Exited && e.world[a].running == w[a].running
    ensures forall b :: b in w && b != a ==> e.world[b] == w[b].(inbox := e.world[b].inbox)
  {
    var me := w[a].self.value;
    var w1 := w[a := w[a].(thread := M.Exited)];
    ExitedCovers(w, a);
    SendAllKeepsShape(w1, w[a].watchers, Envelope(Terminated, me), me);
    SendAll(w1, w[a].watchers, Envelope(Terminated, me), me)
  }

  /** Ending the thread keeps every watcher covered. */
  lemma ExitedCovers(w: World, a: Actor)
    requires a in w && CoversAll(w, w[a].watchers)
    ensures CoversAll(w[a := w[a].(thread := M.Exited)], w[a].watchers)
  {
    var w1 := w[a := w[a].(thread := M.Exited)];
    forall i | 0 <= i < |w[a].watchers| ensures Covers(w1, w[a].watchers[i].actor) {
      assert w1[w[a].watchers[i].actor].system == w[w[a].watchers[i].actor].system;
    }
  }

  // ---------------------------------------------------------------------
  // Properties of the pure meaning
  // ---------------------------------------------------------------------

  /** When the `finally` block's notifications pass, every watcher that
      still runs has `Terminated` from the exiting actor queued behind what
      it already held. */
  lemma ExitNotifiesRunningWatchers(w: World, a: Actor, k: nat)
    requires a in w && w[a].self.Some? && CoversAll(w, w[a].watchers)
    requires k < |w[a].watchers| && w[w[a].watchers[k].actor].running
    requires ExitSpec(w, a).outcome == Pass
    ensures var b := w[a].watchers[k].actor;
            var w' := ExitSpec(w, a).world;
            b in w' && w[b].inbox <= w'[b].inbox
            && Envelope(Terminated, w[a].self.value) in w'[b].inbox[|w[b].inbox|..]
  {
    var me := w[a].self.value;
    var w1 := w[a := w[a].(thread := M.Exited)];
    var b := w[a].watchers[k].actor;
    ExitedCovers(w, a);
    assert w1[b].running && w1[b].inbox == w[b].inbox;
    SendAllReachesRunning(w1, w[a].watchers, Envelope(Terminated, me), me, k);
  }

  /** An actor whose dead-letter route is usable: it knows its system, and
      that system's dead-letter actor knows one too. */
  predicate Started(w: World, a: Actor)
  {
    Covers(w, a) && w[a].system.Some? && w[w[a].system.value.deadLetterActor].system.Some?
  }

  /** Sending to started actors never raises. */
  lemma {:induction false} SendAllToStartedPasses(w: World, targets: seq<ActorRef>, env: Env, current: ActorRef)
    requires CoversAll(w, targets)
    requires forall i :: 0 <= i < |targets| ==> Started(w, targets[i].actor)
    ensures SendAll(w, targets, env, current).outcome == Pass
    decreases |targets|
  {
    if targets != [] {
      var first := SendSpec(w, targets[0].actor, env, current);
      assert first.outcome == Pass;
      SendKeepsShape(w, targets[0].actor, env, current);
      forall i | 0 <= i < |targets[1..]| ensures Started(first.world, targets[1..][i].actor) {
        var b := targets[1..][i].actor;
        assert Started(w, b);
        CoversKept(w, first.world, b);
        assert first.world[b].system == w[b].system;
        var d := w[b].system.value.deadLetterActor;
        assert first.world[d].system == w[d].system;
      }
      SendAllToStartedPasses(first.world, targets[1..], env, current);
    }
  }

  /** One step of the broadcast: when the first send passes, the rest of
      the broadcast runs on the world it left. */
  lemma SendAllUnfold(w: World, targets: seq<ActorRef>, env: Env, current: ActorRef)
    requires CoversAll(w, targets) && targets != []
    ensures Covers(w, targets[0].actor)
    ensures var first := SendSpec(w, targets[0].actor, env, current);
            first.outcome.Pass? ==>
              && CoversAll(first.world, targets[1..])
              && SendAll(w, targets, env, current) == SendAll(first.world, targets[1..], env, current)
    ensures var first := SendSpec(w, targets[0].actor, env, current);
            first.outcome.Fail? ==> SendAll(w, targets, env, current) == first
  {
    assert Covers(w, targets[0].actor);
    var first := SendSpec(w, targets[0].actor, env, current);
    if first.outcome.Pass? {
      SendKeepsShape(w, targets[0].actor, env, current);
      forall i | 0 <= i < |targets[1..]| ensures Covers(first.world, targets[1..][i].actor) {
        assert targets[1..][i] == targets[i + 1];
        CoversKept(w, first.world, targets[1..][i].actor);
      }
    }
  }

  /** Nor does a broadcast change anything but inboxes. */
  lemma {:induction false} SendAllKeepsShape(w: World, targets: seq<ActorRef>, env: Env, current: ActorRef)
    requires CoversAll(w, targets)
    ensures OnlyInboxes(w, SendAll(w, targets, env, current).world)
    decreases |targets|
  {
    if targets != [] {
      SendAllUnfold(w, targets, env, current);
      var first := SendSpec(w, targets[0].actor, env, current);
      SendKeepsShape(w, targets[0].actor, env, current);
      if first.outcome.Pass? {
        SendAllKeepsShape(first.world, targets[1..], env, current);
      }
    }
  }

  /** A send never takes anything out of an inbox. */
  lemma SendGrows(w: World, a: Actor, env: Env, current: ActorRef)
    requires Covers(w, a)
    ensures InboxesGrow(w, SendSpec(w, a, env, current).world)
  {
  }

  /** Nor does a broadcast: every inbox keeps what it held, in order. */
  lemma {:induction false} SendAllGrows(w: World, targets: seq<ActorRef>, env: Env, current: ActorRef)
    requires CoversAll(w, targets)
    ensures InboxesGrow(w, SendAll(w, targets, env, current).world)
    decreases |targets|
  {
    if targets != [] {
      SendAllUnfold(w, targets, env, current);
      var first := SendSpec(w, targets[0].actor, env, current);
      SendGrows(w, targets[0].actor, env, current);
      if first.outcome.Pass? {
        SendAllGrows(first.world, targets[1..], env, current);
      }
    }
  }

  /** An element of a suffix is in every longer suffix. */
  lemma InLongerSuffix<T>(s: seq<T>, n: nat, p: nat, x: T)
    requires n <= p <= |s| && x in s[p..]
    ensures x in s[n..]
  {
    assert s[p..] == s[n..][p - n..];
  }

  /** After a successful broadcast, every target that was running has the
      envelope queued behind what it already held. */
  lemma {:induction false} SendAllReachesRunning(w: World, targets: seq<ActorRef>, env: Env,
                                                 current: ActorRef, k: nat)
    requires CoversAll(w, targets) && k < |targets| && w[targets[k].actor].running
    requires SendAll(w, targets, env, current).outcome == Pass
    ensures var w' := SendAll(w, targets, env, current).world;
            var a := targets[k].actor;
            a in w' && w[a].inbox <= w'[a].inbox && env in w'[a].inbox[|w[a].inbox|..]
    decreases |targets|
  {
    var a := targets[k].actor;
    SendAllUnfold(w, targets, env, current);
    var first := SendSpec(w, targets[0].actor, env, current);
    SendGrows(w, targets[0].actor, env, current);
    SendAllGrows(first.world, targets[1..], env, current);
    var mid := first.world[a].inbox;
    var fin := SendAll(first.world, targets[1..], env, current).world[a].inbox;
    assert w[a].inbox <= mid <= fin;
    if k == 0 {
      assert mid == w[a].inbox + [env];
      assert fin[|w[a].inbox|] == env;
    } else {
      assert targets[1..][k - 1] == targets[k];
      SendAllReachesRunning(first.world, targets[1..], env, current, k - 1);
      InLongerSuffix(fin, |w[a].inbox|, |mid|, env);
    }
  }

  /** The broadcast of `shutdown()` (a `PoisonPill` to every registered
      actor in registration order, then to the dead-letter actor) on a
      system whose actors are all started passes, poisons every registered
      actor that runs and the dead-letter actor if it runs; no actor stops
      by it (the pill is only queued). */
  lemma ShutdownPoisonsRunning(w: World, registered: seq<ActorRef>, deadLetter: ActorRef,
                               current: ActorRef)
    requires CoversAll(w, registered + [deadLetter])
    requires forall i :: 0 <= i < |registered| ==> Started(w, registered[i].actor)
    requires Started(w, deadLetter.actor)
    ensures var e := SendAll(w, registered + [deadLetter], Envelope(PoisonPill, current), current);
            && e.outcome == Pass
            && OnlyInboxes(w, e.world)
            && InboxesGrow(w, e.world)
            && (forall i :: 0 <= i < |registered| && registered[i].actor in w && w[registered[i].actor].running ==>
                  Envelope(PoisonPill, current) in e.world[registered[i].actor].inbox[|w[registered[i].actor].inbox|..])
            && (w[deadLetter.actor].running ==>
                  Envelope(PoisonPill, current) in e.world[deadLetter.actor].inbox[|w[deadLetter.actor].inbox|..])
  {
    var ts := registered + [deadLetter];
    var env := Envelope(PoisonPill, current);
    assert forall i :: 0 <= i < |ts| ==> Started(w, ts[i].actor) by {
      forall i | 0 <= i < |ts| ensures Started(w, ts[i].actor) {
        if i < |registered| { assert ts[i] == registered[i]; }
      }
    }
    SendAllToStartedPasses(w, ts, env, current);
    SendAllKeepsShape(w, ts, env, current);
    SendAllGrows(w, ts, env, current);
    forall i | 0 <= i < |registered| && w[registered[i].actor].running
      ensures env in SendAll(w, ts, env, current).world[registered[i].actor].inbox[|w[registered[i].actor].inbox|..]
    {
      assert ts[i] == registered[i];
      SendAllReachesRunning(w, ts, env, current, i);
    }
    if w[deadLetter.actor].running {
      SendAllReachesRunning(w, ts, env, current, |registered|);
    }
  }

  /** Dead-lettering never wraps twice: what reaches the dead-letter inbox
      is a single `DeadLetter` around a message that is not one, and the
      dead-letter handler is handed that message back. */
  lemma DeadLetterWrapsOnce(w: World, dl: Actor, m: Msg, current: ActorRef)
    requires dl in w
    ensures var e := DeadLetterSpec(w, dl, m, current);
            forall i :: |w[dl].inbox| <= i < |e.world[dl].inbox| ==>
              && e.world[dl].inbox[i].message == Msg.DeadLetter(m)
              && !m.DeadLetter?
              && Classify(e.world[dl].inbox[i].message) == Deliver(Msg.DeadLetter(m))
              && DeadLetterHandlerInput(e.world[dl].inbox[i].message) == Some(m)
  {
  }

  /** The exception path: `onException` rethrows by default, the loop is
      left while `_running` is still true, and the `finally` block runs.
      Afterwards the actor still counts as running, so a later `send`
      queues into an inbox no thread takes from, instead of dead-lettering,
      and `start` refuses it. */
  lemma SendAfterCrashQueues(w: World, a: Actor, env: Env, current: ActorRef, me: Actor, name: string, sys: ActorSystem)
    requires Covers(w, a) && w[a].running && w[a].self.Some? && CoversAll(w, w[a].watchers)
    requires ExitSpec(w, a).outcome == Pass
    ensures var w' := ExitSpec(w, a).world;
            && Covers(w', a)
            && w'[a].running && w'[a].thread == M.Exited
            && SendSpec(w', a, env, current).world[a].inbox == w'[a].inbox + [env]
            && M.Start(w'[a], me, name, sys) == Err(AlreadyStarted)
  {
    var w1 := w[a := w[a].(thread := M.Exited)];
    var me := w[a].self.value;
    ExitedCovers(w, a);
    SendAllKeepsShape(w1, w[a].watchers, Envelope(Terminated, me), me);
    var w' := ExitSpec(w, a).world;
    assert w'[a].running == w1[a].running;
    assert w'[a].system == w[a].system;
  }

  // ---------------------------------------------------------------------
  // Registration
  // ---------------------------------------------------------------------

  /** The guards of `actor(name, a)` / `_actor` / `_start` / `start`, in the
      order the code runs them: reserved name (public entry only),
      duplicate name, inactive system, actor already running. */
  function RegistrationError(checkNameSpace: bool, name: string, names: set<string>,
                             active: bool, running: bool): (e: Option<Error>)
    ensures e == None <==> !(checkNameSpace && NameSpace.HasNameSpace(name)) && name !in names && active && !running
    ensures checkNameSpace && NameSpace.HasNameSpace(name) ==> e == Some(ReservedName)
    ensures !(checkNameSpace && NameSpace.HasNameSpace(name)) && name in names ==> e == Some(DuplicateName)
    ensures !(checkNameSpace && NameSpace.HasNameSpace(name)) && name !in names && !active ==> e == Some(SystemInactive)
    ensures !(checkNameSpace && NameSpace.HasNameSpace(name)) && name !in names && active && running ==> e == Some(AlreadyStarted)
  {
    if checkNameSpace && NameSpace.HasNameSpace(name) then Some(ReservedName)
    else if name in names then Some(DuplicateName)
    else if !active then Some(SystemInactive)
    else if running then Some(AlreadyStarted)
    else None
  }

  /** A duplicate name is reported as such even on an inactive system, and
      a reserved name is rejected whatever else holds. */
  lemma GuardOrder(name: string, names: set<string>, running: bool)
    ensures name in names && !NameSpace.HasNameSpace(name) ==>
              RegistrationError(true, name, names, false, running) == Some(DuplicateName)
    ensures RegistrationError(true, "_system____", names, true, false) == Some(ReservedName)
  {
    NameSpace.UnderscoreNameIsReserved();
  }

  /** The registry entries in iteration (registration) order. */
  function InOrder(registry: map<string, ActorRef>, order: seq<string>): (rs: seq<ActorRef>)
    requires forall i :: 0 <= i < |order| ==> order[i] in registry
    ensures |rs| == |order| && forall i :: 0 <= i < |order| ==> rs[i] == registry[order[i]]
  {
    if order == [] then [] else [registry[order[0]]] + InOrder(registry, order[1..])
  }

  // ---------------------------------------------------------------------
  // The objects
  // ---------------------------------------------------------------------

  /** The states of the actors of `F`. */
  ghost function Snapshot(F: set<Actor>): World
    reads F
  {
    map a | a in F :: a.State()
  }

  /** A snapshot that covers `a` holds everything `a.Send` may change. */
  lemma CoversFrame(F: set<Actor>, a: Actor)
    requires Covers(Snapshot(F), a)
    ensures a in F && a.DeadLetterFrame() <= F
  {
    assert Snapshot(F)[a] == a.State();
  }

  /** `targets.forEach { it.send(m, s) }`, called on a thread whose current
      actor is `current`. */
  method Broadcast(targets: seq<ActorRef>, m: Msg, s: ActorRef, current: ActorRef, ghost F: set<Actor>)
    returns (r: Outcome<Error>)
    requires CoversAll(Snapshot(F), targets)
    modifies F
    ensures Effect(Snapshot(F), r) == SendAll(old(Snapshot(F)), targets, Envelope(m, s), current)
  {
    ghost var w0 := Snapshot(F);
    var env := Envelope(m, s);
    assert targets[0..] == targets;
    r := Pass;
    var i := 0;
    while i < |targets|
      invariant 0 <= i <= |targets|
      invariant CoversAll(Snapshot(F), targets[i..])
      invariant SendAll(w0, targets, env, current) == SendAll(Snapshot(F), targets[i..], env, current)
      invariant r == Pass
    {
      ghost var w := Snapshot(F);
      SendAllUnfold(w, targets[i..], env, current);
      var a := targets[i].actor;
      assert targets[i..][0] == targets[i];
      CoversFrame(F, a);
      r := a.Send(m, s, current, F);
      if r.Fail? {
        return;
      }
      assert targets[i..][1..] == targets[i + 1..];
      i := i + 1;
    }
    assert targets[i..] == [];
  }

  /** `Actor`: the mailbox and lifecycle of one actor. Its user behaviour
      (`receive`, `before`, `after`, `onException`) is not part of it. */
  class Actor {
    var inbox: seq<Env>
    var running: bool
    var self: Option<ActorRef>
    var system: Option<ActorSystem>
    var sender: Option<ActorRef>
    var watchers: seq<ActorRef>
    var thread: M.ThreadState

    function State(): ActorState
      reads this
    {
      M.ActorState(inbox, running, self, system, sender, watchers, thread)
    }

    /** The dead-letter actor a failed `send` reaches, once the system is known. */
    function DeadLetterFrame(): set<Actor>
      reads this
    {
      if system.Some? then {system.value.deadLetterActor} else {}
    }

    constructor()
      ensures State() == M.Initial()
    {
      inbox, running, self, system, sender, watchers, thread := [], false, None, None, None, [], M.Unstarted;
    }

    /** `start(name, system)`. The thread's `before()` is user code. */
    method Start(name: string, sys: ActorSystem) returns (r: Result<ActorRef, Error>)
      modifies this
      ensures var spec := M.Start(old(State()), this, name, sys);
              && (spec.Ok? ==> r == Ok(Ref(this, name)) && State() == spec.value)
              && (spec.Err? ==> r == Err(spec.error) && State() == old(State()))
    {
      if running {
        return Err(AlreadyStarted);
      }
      running := true;
      self := Some(Ref(this, name));
      system := Some(sys);
      thread := M.Looping;
      r := Ok(Ref(this, name));
    }

    /** `send(message, sender)`; `current` is the calling thread's current
      actor, the sender of a dead letter. */
    method Send(m: Msg, s: ActorRef, current: ActorRef, ghost F: set<Actor>) returns (r: Outcome<Error>)
      requires this in F && DeadLetterFrame() <= F
      modifies if running then {this} else {this} + DeadLetterFrame()
      ensures Effect(Snapshot(F), r) == SendSpec(old(Snapshot(F)), this, Envelope(m, s), current)
      ensures old(running) ==> State() == M.Enqueue(old(State()), Envelope(m, s))
    {
      if running {
        inbox := inbox + [Envelope(m, s)];
        r := Pass;
      } else if system.None? {
        r := Fail(Uninitialized);
      } else {
        r := system.value.DeadLetter(m, current, F);
      }
    }

    /** `stop()`, called from `receive`. */
    method Stop()
      modifies this
      ensures State() == M.Stop(old(State()))
    {
      running := false;
    }

    /** One pass of `mainLoop`; a `Receive` result is the message the loop
      hands to the user's `receive`. */
    method Step() returns (d: M.Dispatch<Actor>)
      modifies this
      ensures (State(), d) == M.Step(old(State()))
      ensures DistinctNames(old(watchers)) ==> DistinctNames(watchers)
    {
      if DistinctNames(watchers) {
        M.StepKeepsWatchersDistinct(State());
      }
      if !running {
        return M.LoopExit;
      }
      if inbox == [] {
        return M.Blocked;
      }
      var env := inbox[0];
      inbox := inbox[1..];
      sender := Some(env.sender);
      match Classify(env.message)
      case Deliver(msg) =>
        d := M.Receive(msg);
      case Halt =>
        Stop();
        d := M.Stopped;
      case Subscribe =>
        watchers := AddToSet(watchers, env.sender);
        d := M.Watched(env.sender);
    }

    /** `while (_running)` over `Step`, with a `receive` that returns
      normally, until the inbox is empty or the actor stopped. */
    method MainLoop() returns (handed: seq<Msg>)
      modifies this
      ensures (State(), handed) == M.Drain(old(State()))
      ensures DistinctNames(old(watchers)) ==> DistinctNames(watchers)
    {
      if DistinctNames(watchers) {
        M.DrainKeepsWatchersDistinct(State());
      }
      handed := [];
      ghost var st0 := State();
      while running && inbox != []
        invariant M.Drain(st0).0 == M.Drain(State()).0
        invariant M.Drain(st0).1 == handed + M.Drain(State()).1
        decreases |inbox|
      {
        M.DrainUnfold(State());
        var d := Step();
        if d.Receive? {
          handed := handed + [d.message];
        }
      }
      M.DrainDone(State());
      assert handed + [] == handed;
    }

    /** The `finally` block of the thread: `after()` (user code), then
      `Terminated` to every watcher. */
    method Exit(ghost F: set<Actor>) returns (r: Outcome<Error>)
      requires self.Some? && this in F
      requires forall i :: 0 <= i < |watchers| ==> Covers(Snapshot(F), watchers[i].actor)
      modifies F
      ensures Effect(Snapshot(F), r) == ExitSpec(old(Snapshot(F)), this)
    {
      var me := self.value;
      var ws := watchers;
      ghost var w0 := Snapshot(F);
      thread := M.Exited;
      assert Snapshot(F) == w0[this := w0[this].(thread := M.Exited)];
      assert CoversAll(Snapshot(F), ws) by {
        forall i | 0 <= i < |ws| ensures Covers(Snapshot(F), ws[i].actor) {
          assert Snapshot(F)[ws[i].actor].system == w0[ws[i].actor].system;
        }
      }
      r := Broadcast(ws, Terminated, me, me, F);
    }
  }

  /** `ActorSystem`: the registry, the active flag and the dead-letter actor. */
  class ActorSystem {
    /** `_actors`; each `ActorWrapper(reference, actor)` is the reference,
        which holds its actor. */
    var registry: map<string, ActorRef>
    /** The iteration order of `_actors` (a LinkedHashMap): registration order. */
    var order: seq<string>
    var active: bool
    /** The actor of `_deadLetterActor`, assigned once by `init`. */
    const deadLetterActor: Actor

    ghost predicate Valid()
      reads this`registry, this`order
    {
      && (forall n :: n in registry ==> registry[n].name == n)
      && (forall i :: 0 <= i < |order| ==> order[i] in registry)
      && (forall n :: n in registry ==> n in order)
      && (forall i, j :: 0 <= i < j < |order| ==> order[i] != order[j])
    }

    function DeadLetterRef(): ActorRef
    {
      Ref(deadLetterActor, NameSpace.DeadLetterName)
    }

    /** `init`: the main actor is registered under `_system/main` (and
      becomes the current actor of the constructing thread); the dead-letter
      actor is started under `_system/deadLetter` without being registered. */
    constructor()
      ensures Valid() && active
      ensures registry.Keys == {NameSpace.MainName} && order == [NameSpace.MainName]
      ensures var main := registry[NameSpace.MainName].actor;
              && fresh(main) && fresh(deadLetterActor) && main != deadLetterActor
              && main.State() == M.Start(M.Initial(), main, NameSpace.MainName, this).value
              && deadLetterActor.State() == M.Start(M.Initial(), deadLetterActor, NameSpace.DeadLetterName, this).value
    {
      deadLetterActor := new Actor();
      registry := map[];
      order := [];
      active := true;
      new;
      var main := new Actor();
      var r := RegisterUnchecked(NameSpace.MainName, main);
      var d := StartActor(NameSpace.DeadLetterName, deadLetterActor);
    }

    /** `isActive()`: what `passIfActive` and `waitForShutdown` poll. */
    function IsActive(): (b: bool)
      reads this
      ensures b <==> PassIfActive().Pass?
    {
      active
    }

    /** `passIfActive()`. */
    function PassIfActive(): (r: Outcome<Error>)
      reads this
      ensures r.Pass? <==> active
      ensures r.Fail? ==> r.error == SystemInactive
    {
      if active then Pass else Fail(SystemInactive)
    }

    /** `find(name)`: a lookup that changes nothing. */
    function Find(name: string): (r: Option<ActorRef>)
      reads this
      ensures r.Some? <==> name in registry
      ensures r.Some? ==> r.value == registry[name]
      ensures Valid() && r.Some? ==> r.value.name == name
    {
      if name in registry then Some(registry[name]) else None
    }

    /** `_start(name, actor)`: the system must be active, then the actor starts. */
    method StartActor(name: string, a: Actor) returns (r: Result<ActorRef, Error>)
      modifies a
      ensures var e := RegistrationError(false, name, {}, active, old(a.running));
              && (e.Some? ==> r == Err(e.value) && a.State() == old(a.State()))
              && (e.None? ==> r == Ok(Ref(a, name)) && a.State() == M.Start(old(a.State()), a, name, this).value)
    {
      var p := PassIfActive();
      if p.Fail? {
        return Err(p.error);
      }
      r := a.Start(name, this);
    }

    /** `_actor(name, actor)`: registration without the name-space check,
      used by `init` for the main actor. */
    method RegisterUnchecked(name: string, a: Actor) returns (r: Result<ActorRef, Error>)
      requires Valid()
      modifies this, a
      ensures Valid() && active == old(active)
      ensures var e := RegistrationError(false, name, old(registry).Keys, old(active), old(a.running));
              && (e.Some? ==> r == Err(e.value) && registry == old(registry) && order == old(order)
                              && a.State() == old(a.State()))
              && (e.None? ==> r == Ok(Ref(a, name)) && registry == old(registry)[name := Ref(a, name)]
                              && order == old(order) + [name]
                              && a.State() == M.Start(old(a.State()), a, name, this).value)
    {
      if name in registry {
        return Err(DuplicateName);
      }
      r := StartActor(name, a);
      if r.Ok? {
        registry := registry[name := r.value];
        order := order + [name];
      }
    }

    /** `actor(name, actor)`: the public registration. */
    method Register(name: string, a: Actor) returns (r: Result<ActorRef, Error>)
      requires Valid()
      modifies this, a
      ensures Valid() && active == old(active)
      ensures var e := RegistrationError(true, name, old(registry).Keys, old(active), old(a.running));
              && (e.Some? ==> r == Err(e.value) && registry == old(registry) && order == old(order)
                              && a.State() == old(a.State()))
              && (e.None? ==> r == Ok(Ref(a, name)) && registry == old(registry)[name := Ref(a, name)]
                              && order == old(order) + [name]
                              && a.State() == M.Start(old(a.State()), a, name, this).value)
    {
      if NameSpace.HasNameSpace(name) {
        return Err(ReservedName);
      }
      r := RegisterUnchecked(name, a);
    }

    /** `actor(actor)`: an anonymous actor is started under
      `_system/anonymous` and not registered. */
    method StartAnonymous(a: Actor) returns (r: Result<ActorRef, Error>)
      modifies a
      ensures var e := RegistrationError(false, NameSpace.AnonymousName, {}, active, old(a.running));
              && (e.Some? ==> r == Err(e.value) && a.State() == old(a.State()))
              && (e.None? ==> r == Ok(Ref(a, NameSpace.AnonymousName))
                              && a.State() == M.Start(old(a.State()), a, NameSpace.AnonymousName, this).value)
    {
      r := StartActor(NameSpace.AnonymousName, a);
    }

    /** `deadLetter(message)`. */
    method DeadLetter(m: Msg, current: ActorRef, ghost F: set<Actor>) returns (r: Outcome<Error>)
      requires deadLetterActor in F
      modifies deadLetterActor
      ensures Effect(Snapshot(F), r) == DeadLetterSpec(old(Snapshot(F)), deadLetterActor, m, current)
    {
      r := Pass;
      if !m.DeadLetter? {
        var dl := deadLetterActor;
        if dl.running {
          dl.inbox := dl.inbox + [Envelope(Msg.DeadLetter(m), current)];
        } else if dl.system.None? {
          r := Fail(Uninitialized);
        }
        // else: the stopped actor's `send` hands the wrapped message back
        // to `deadLetter`, which drops it
      }
    }

    /** `shutdown()`. */
    method Shutdown(current: ActorRef, ghost F: set<Actor>) returns (r: Outcome<Error>)
      requires Valid()
      requires CoversAll(Snapshot(F), InOrder(registry, order) + [DeadLetterRef()])
      modifies this`active, F
      ensures !old(active) ==> r == Fail(SystemInactive) && Snapshot(F) == old(Snapshot(F))
      ensures old(active) ==>
                Effect(Snapshot(F), r)
                  == SendAll(old(Snapshot(F)), InOrder(registry, order) + [DeadLetterRef()], Envelope(PoisonPill, current), current)
      ensures active == (old(active) && r.Fail?)
    {
      r := PassIfActive();
      if r.Pass? {
        r := Broadcast(InOrder(registry, order) + [DeadLetterRef()], PoisonPill, current, current, F);
        if r.Pass? {
          active := false;
        }
      }
    }

    /** The caller guard of `waitForShutdown()`: only the main actor's
      context may wait. The waiting itself (polling `isActive`, joining the
      threads) is not modelled. */
    method WaitForShutdown(current: ActorRef) returns (r: Outcome<Error>)
      ensures r.Pass? <==> current.name == NameSpace.MainName
      ensures r.Fail? ==> r.error == IllegalCaller
    {
      if current.name != NameSpace.MainName {
        return Fail(IllegalCaller);
      }
      r := Pass;
    }

    /** `ask(target, message, timeout)`. `reply` is what the asking actor
      receives before the timeout, if anything. */
    method Ask(target: ActorRef, m: Msg, reply: Option<Msg>, current: ActorRef, ghost F: set<Actor>)
      returns (r: Result<Msg, Error>, ghost asking: Option<ActorRef>)
      requires Covers(Snapshot(F), target.actor) && deadLetterActor in F
      modifies F
      ensures !old(active) ==> r == Err(SystemInactive) && asking == None && Snapshot(F) == old(Snapshot(F))
      ensures old(active) ==>
                && asking.Some? && asking.value.name == NameSpace.AnonymousName && fresh(asking.value.actor)
                && Snapshot(F) == SendSpec(old(Snapshot(F)), target.actor, Envelope(m, asking.value), asking.value).world
                && r == (if reply.Some? then Ok(reply.value) else Err(AskTimeout))
                && asking.value.actor.running && asking.value.actor.inbox == [Envelope(PoisonPill, current)]
    {
      var started := SpawnAsking(target, m, F);
      if started.Err? {
        return Err(started.error), None;
      }
      var askRef := started.value;
      asking := Some(askRef);
      if reply.Some? {
        r := Ok(reply.value);
      } else {
        r := Err(AskTimeout);
      }
      // `finally { askingActor send PoisonPill }`
      var torn := askRef.actor.Send(PoisonPill, current, current, {askRef.actor, deadLetterActor});
    }

    /** The first line of `ask`: `actor(AskingActor(returnChannel, target,
      message))`, an anonymous actor whose `before()` sends the question. */
    method SpawnAsking(target: ActorRef, m: Msg, ghost F: set<Actor>) returns (started: Result<ActorRef, Error>)
      requires Covers(Snapshot(F), target.actor)
      modifies F
      ensures !old(active) ==> started == Err(SystemInactive) && Snapshot(F) == old(Snapshot(F))
      ensures old(active) ==>
                && started.Ok? && started.value.name == NameSpace.AnonymousName
                && fresh(started.value.actor) && started.value.actor !in F
                && started.value.actor.State()
                     == M.Start(M.Initial(), started.value.actor, NameSpace.AnonymousName, this).value
                && Snapshot(F) == SendSpec(old(Snapshot(F)), target.actor, Envelope(m, started.value), started.value).world
    {
      var a := new Actor();
      started := StartAnonymous(a);
      if started.Ok? {
        AskingBefore(target, m, started.value, F);
      }
    }
  }

  /** `AskingActor.before()`: on the asking actor's own thread, whose
      current actor is `me`, `target send message`. */
  method AskingBefore(target: ActorRef, m: Msg, me: ActorRef, ghost F: set<Actor>)
    requires Covers(Snapshot(F), target.actor)
    modifies F
    ensures Snapshot(F) == SendSpec(old(Snapshot(F)), target.actor, Envelope(m, me), me).world
  {
    CoversFrame(F, target.actor);
    var sent := target.actor.Send(m, me, me, F);
  }

  // ---------------------------------------------------------------------
  // ActorReference.kt: what a reference delegates
  // ---------------------------------------------------------------------

  /** `ActorReference.send(message, sender)`: handed to the actor. */
  method SendFrom(r: ActorRef, m: Msg, s: ActorRef, current: ActorRef, ghost F: set<Actor>)
    returns (o: Outcome<Error>)
    requires Covers(Snapshot(F), r.actor)
    modifies F
    ensures Effect(Snapshot(F), o) == SendSpec(old(Snapshot(F)), r.actor, Envelope(m, s), current)
  {
    CoversFrame(F, r.actor);
    o := r.actor.Send(m, s, current, F);
  }

  /** `r send message`: the sender is the current actor of the calling thread. */
  method SendImplicit(r: ActorRef, m: Msg, current: ActorRef, ghost F: set<Actor>) returns (o: Outcome<Error>)
    requires Covers(Snapshot(F), r.actor)
    modifies F
    ensures Effect(Snapshot(F), o) == SendSpec(old(Snapshot(F)), r.actor, Envelope(m, current), current)
  {
    o := SendFrom(r, m, current, current, F);
  }

  /** `watcher watch target`: a `Watch` to `target`. Its sender is the
      current actor of the calling thread; `watcher` itself plays no part. */
  method WatchRef(watcher: ActorRef, target: ActorRef, current: ActorRef, ghost F: set<Actor>)
    returns (o: Outcome<Error>)
    requires Covers(Snapshot(F), target.actor)
    modifies F
    ensures Effect(Snapshot(F), o) == SendSpec(old(Snapshot(F)), target.actor, Envelope(Watch, current), current)
  {
    o := SendImplicit(target, Watch, current, F);
  }

  /** `r.ask(message, timeout)`, with `sys` the system the reference belongs to. */
  method AskRef(sys: ActorSystem, r: ActorRef, m: Msg, reply: Option<Msg>, current: ActorRef, ghost F: set<Actor>)
    returns (res: Result<Msg, Error>, ghost asking: Option<ActorRef>)
    requires Covers(Snapshot(F), r.actor) && sys.deadLetterActor in F
    modifies F
    ensures !old(sys.active) ==> res == Err(SystemInactive) && asking == None && Snapshot(F) == old(Snapshot(F))
    ensures old(sys.active) ==>
              && asking.Some? && asking.value.name == NameSpace.AnonymousName && fresh(asking.value.actor)
              && Snapshot(F) == SendSpec(old(Snapshot(F)), r.actor, Envelope(m, asking.value), asking.value).world
              && res == (if reply.Some? then Ok(reply.value) else Err(AskTimeout))
              && asking.value.actor.running && asking.value.actor.inbox == [Envelope(PoisonPill, current)]
  {
    res, asking := sys.Ask(r, m, reply, current, F);
  }

  /** `Actor.actor(name, child)`: register the child with this actor's
      system, then `self() watch child`, whose sender is the current actor
      of the calling thread (the parent itself when called from its own
      thread). */
  method CreateChild(parent: Actor, name: string, child: Actor, current: ActorRef)
    returns (r: Result<ActorRef, Error>)
    requires parent.system.Some? ==> parent.system.value.Valid()
    modifies if parent.system.Some? then {parent.system.value, child, parent.system.value.deadLetterActor} else {}
    ensures old(parent.system).None? ==> r == Err(Uninitialized)
    ensures old(parent.system).Some? ==>
              var sys := old(parent.system).value;
              var e := RegistrationError(true, name, old(sys.registry).Keys, old(sys.active), old(child.running));
              && sys.Valid() && sys.active == old(sys.active)
              && (child != sys.deadLetterActor ==> sys.deadLetterActor.State() == old(sys.deadLetterActor.State()))
              && (e.Some? ==> r == Err(e.value) && sys.registry == old(sys.registry) && sys.order == old(sys.order)
                              && child.State() == old(child.State()))
              && (e.None? ==> sys.registry == old(sys.registry)[name := Ref(child, name)]
                              && sys.order == old(sys.order) + [name])
              && (e.None? && old(parent.self).None? && parent != child ==>
                    r == Err(Uninitialized) && child.State() == M.Start(old(child.State()), child, name, sys).value)
              && (e.None? && (old(parent.self).Some? || parent == child) ==>
                    && r == Ok(Ref(child, name))
                    && child.State() == M.Enqueue(M.Start(old(child.State()), child, name, sys).value,
                                                  Envelope(Watch, current)))
  {
    if parent.system.None? {
      return Err(Uninitialized);
    }
    var sys := parent.system.value;
    r := sys.Register(name, child);
    if r.Err? {
      return;
    }
    if parent.self.None? {
      // `self()` of an actor that was never started: its `lateinit` is unset
      return Err(Uninitialized);
    }
    ghost var F := {child, sys.deadLetterActor};
    assert Snapshot(F)[child].system == Some(sys);
    var o := WatchRef(parent.self.value, r.value, current, F);
  }
}
