/** The state of one actor of Actor.kt as a value, and the pure meaning of
    `start`, `stop` and one pass of the `mainLoop` body.

    `A` is the actor type (the target of references) and `S` the system
    type; the Runtime module instantiates them with its classes. */
module Mailbox {

  import opened Wrappers
  import opened Errors
  import opened Messages
  import opened References

  /** The actor's thread: not yet created, inside `before`/`mainLoop`, or
      past its `finally` block. */
  datatype ThreadState = Unstarted | Looping | Exited

  /** The fields of `Actor`: `_inbox`, `_running`, `_self`, `_system`,
      `_sender`, `_watchers` and `_thread`. The `lateinit` fields are
      `None` until assigned. */
  datatype ActorState<A, S> = ActorState(
    inbox: seq<Envelope<Ref<A>>>,
    running: bool,
    self: Option<Ref<A>>,
    system: Option<S>,
    sender: Option<Ref<A>>,
    watchers: seq<Ref<A>>,
    thread: ThreadState)

  /** A freshly constructed actor. */
  function Initial<A, S>(): ActorState<A, S>
  {
    ActorState([], false, None, None, None, [], Unstarted)
  }

  /** `start(name, system)` on actor `me`: refused while running; otherwise
      the actor runs, knows its reference and system, and its thread is
      started. The inbox and watchers of an earlier run are kept. */
  function Start<A, S>(st: ActorState<A, S>, me: A, name: string, sys: S): (r: Result<ActorState<A, S>, Error>)
    ensures r.Err? <==> st.running
    ensures r.Err? ==> r.error == AlreadyStarted
    ensures r.Ok? ==> r.value.running && r.value.self == Some(Ref(me, name))
                      && r.value.system == Some(sys) && r.value.thread == Looping
    ensures r.Ok? ==> r.value.inbox == st.inbox && r.value.watchers == st.watchers
                      && r.value.sender == st.sender
  {
    if st.running then Err(AlreadyStarted)
    else Ok(st.(running := true, self := Some(Ref(me, name)), system := Some(sys), thread := Looping))
  }

  /** `stop()`, which `receive` may call. */
  function Stop<A, S>(st: ActorState<A, S>): (r: ActorState<A, S>)
    ensures !r.running && r.(running := st.running) == st
  {
    st.(running := false)
  }

  /** The running branch of `send`: the envelope goes to the back of the
      inbox. */
  function Enqueue<A, S>(st: ActorState<A, S>, env: Envelope<Ref<A>>): (r: ActorState<A, S>)
    ensures r.inbox == st.inbox + [env] && r.(inbox := st.inbox) == st
  {
    st.(inbox := st.inbox + [env])
  }

  /** What one pass of the loop did. */
  datatype Dispatch<A> =
    | Blocked               // `_inbox.take()` waits: the inbox is empty
    | LoopExit              // `while (_running)` is false: the loop ends
    | Receive(message: Msg) // `_receive(message)` is called with this message
    | Stopped               // a `PoisonPill` was taken
    | Watched(watcher: Ref<A>)

  /** One pass of `mainLoop`: take the head of the inbox, remember its
      sender and act on the message. */
  function Step<A, S>(st: ActorState<A, S>): (r: (ActorState<A, S>, Dispatch<A>))
    ensures !st.running ==> r == (st, LoopExit)
    ensures st.running && st.inbox == [] ==> r == (st, Blocked)
    ensures st.running && st.inbox != [] ==> !r.1.Blocked? && !r.1.LoopExit?
    ensures !r.1.Blocked? && !r.1.LoopExit? ==> st.running && st.inbox != [] && r.0.inbox == st.inbox[1..]
  {
    if !st.running then (st, LoopExit)
    else if st.inbox == [] then (st, Blocked)
    else
      var env := st.inbox[0];
      var taken := st.(inbox := st.inbox[1..], sender := Some(env.sender));
      match Classify(env.message)
      case Deliver(m) => (taken, Receive(m))
      case Halt => (taken.(running := false), Stopped)
      case Subscribe => (taken.(watchers := AddToSet(st.watchers, env.sender)), Watched(env.sender))
  }

  /** A step on a non-empty inbox of a running actor takes exactly the head
      (FIFO), records its sender, and changes nothing but what the message
      calls for. */
  lemma StepTakesHead<A, S>(st: ActorState<A, S>)
    requires st.running && st.inbox != []
    ensures var (next, d) := Step(st);
            var env := st.inbox[0];
            && next.inbox == st.inbox[1..]
            && next.sender == Some(env.sender)
            && next.self == st.self && next.system == st.system && next.thread == st.thread
            && (env.message.Forward? ==> d == Receive(env.message.message) && next.running && next.watchers == st.watchers)
            && (env.message.PoisonPill? ==> d == Stopped && !next.running && next.watchers == st.watchers)
            && (env.message.Watch? ==> d == Watched(env.sender) && next.running
                                        && next.watchers == AddToSet(st.watchers, env.sender))
            && (!env.message.Forward? && !env.message.PoisonPill? && !env.message.Watch? ==>
                  d == Receive(env.message) && next.running && next.watchers == st.watchers)
  {
  }

  /** A repeated `Watch` from the same sender leaves the watcher set as the
      first one did. */
  lemma WatchIsIdempotent<A, S>(st: ActorState<A, S>, w: Ref<A>)
    requires st.running && DistinctNames(st.watchers)
    ensures var once := Step(st.(inbox := [Envelope(Watch, w), Envelope(Watch, w)]));
            var twice := Step(once.0);
            once.0.watchers == twice.0.watchers && DistinctNames(once.0.watchers)
            && ContainsName(once.0.watchers, w.name)
  {
    AddToSetProperties(st.watchers, w);
  }

  /** A pass of the loop keeps the watcher set free of equal references. */
  lemma StepKeepsWatchersDistinct<A, S>(st: ActorState<A, S>)
    requires DistinctNames(st.watchers)
    ensures DistinctNames(Step(st).0.watchers)
  {
    if st.running && st.inbox != [] && st.inbox[0].message.Watch? {
      AddToSetProperties(st.watchers, st.inbox[0].sender);
    }
  }

  /** So does the loop run to completion. */
  lemma {:induction false} DrainKeepsWatchersDistinct<A, S>(st: ActorState<A, S>)
    requires DistinctNames(st.watchers)
    ensures DistinctNames(Drain(st).0.watchers)
    decreases |st.inbox|
  {
    var s := Step(st);
    if !(s.1.Blocked? || s.1.LoopExit?) {
      StepKeepsWatchersDistinct(st);
      DrainKeepsWatchersDistinct(s.0);
    }
  }

  /** The loop run until it blocks or exits, with a `receive` that returns
      normally and never calls `stop()`; the second component lists the
      messages handed to `receive`, in order. */
  function Drain<A, S>(st: ActorState<A, S>): (r: (ActorState<A, S>, seq<Msg>))
    decreases |st.inbox|
  {
    var s := Step(st);
    if s.1.Blocked? || s.1.LoopExit? then (st, [])
    else
      var rest := Drain(s.0);
      (rest.0, if s.1.Receive? then [s.1.message] + rest.1 else rest.1)
  }

  /** The loop ends only when the actor no longer runs or its inbox is
      empty, and it only ever takes from the front: what is left is a
      suffix of the inbox it started with. */
  lemma {:induction false} DrainEnds<A, S>(st: ActorState<A, S>)
    ensures var fin := Drain(st).0;
            && (!fin.running || fin.inbox == [])
            && |fin.inbox| <= |st.inbox| && fin.inbox == st.inbox[|st.inbox| - |fin.inbox|..]
    decreases |st.inbox|
  {
    var s := Step(st);
    if !(s.1.Blocked? || s.1.LoopExit?) {
      DrainEnds(s.0);
    }
  }

  /** One turn of the loop on a running actor with mail. */
  lemma DrainUnfold<A, S>(st: ActorState<A, S>)
    requires st.running && st.inbox != []
    ensures Drain(st) == (Drain(Step(st).0).0,
                          (if Step(st).1.Receive? then [Step(st).1.message] else []) + Drain(Step(st).0).1)
  {
    var s := Step(st);
    assert [] + Drain(s.0).1 == Drain(s.0).1;
  }

  /** An actor stopped by `stop()` or a `PoisonPill` takes nothing more,
      and one with an empty inbox blocks on it. */
  lemma DrainDone<A, S>(st: ActorState<A, S>)
    requires !st.running || st.inbox == []
    ensures Drain(st) == (st, [])
  {
  }

  predicate NoPill<R>(envs: seq<Envelope<R>>)
  {
    forall i :: 0 <= i < |envs| ==> !envs[i].message.PoisonPill?
  }

  /** The watcher set after the `Watch` messages of `envs` are taken. */
  function Subscribed<A>(ws: seq<Ref<A>>, envs: seq<Envelope<Ref<A>>>): seq<Ref<A>>
    decreases |envs|
  {
    if envs == [] then ws
    else Subscribed(if envs[0].message.Watch? then AddToSet(ws, envs[0].sender) else ws, envs[1..])
  }

  /** Without a `PoisonPill` the loop empties the inbox, hands `receive`
      every message in order and keeps running. */
  lemma {:induction false} DrainWithoutPill<A, S>(st: ActorState<A, S>)
    requires st.running && NoPill(st.inbox)
    decreases |st.inbox|
    ensures var (fin, ms) := Drain(st);
            fin.inbox == [] && fin.running && ms == Handed(st.inbox)
            && fin.watchers == Subscribed(st.watchers, st.inbox)
            && fin.self == st.self && fin.system == st.system && fin.thread == st.thread
  {
    if st.inbox != [] {
      var (next, d) := Step(st);
      StepTakesHead(st);
      assert NoPill(next.inbox) by {
        forall i | 0 <= i < |next.inbox| ensures !next.inbox[i].message.PoisonPill? {
          assert next.inbox[i] == st.inbox[i + 1];
        }
      }
      DrainWithoutPill(next);
    }
  }

  /** A `PoisonPill` stops the loop where it stands in the inbox: everything
      queued before it is handed to `receive` in order, nothing after it is
      taken, and the actor no longer runs. */
  lemma {:induction false} DrainStopsAtPill<A, S>(st: ActorState<A, S>, pre: seq<Envelope<Ref<A>>>,
                                                   pill: Envelope<Ref<A>>, post: seq<Envelope<Ref<A>>>)
    requires st.running && st.inbox == pre + [pill] + post
    requires pill.message == PoisonPill && NoPill(pre)
    decreases |pre|
    ensures var (fin, ms) := Drain(st);
            fin.inbox == post && !fin.running && ms == Handed(pre)
            && fin.sender == Some(pill.sender)
            && fin.watchers == Subscribed(st.watchers, pre)
            && fin.self == st.self && fin.system == st.system && fin.thread == st.thread
  {
    var (next, d) := Step(st);
    StepTakesHead(st);
    if pre == [] {
      assert st.inbox[0] == pill && st.inbox[1..] == post;
      assert Handed(pre) == [];
    } else {
      assert st.inbox[0] == pre[0];
      assert next.inbox == pre[1..] + [pill] + post;
      assert NoPill(pre[1..]) by {
        forall i | 0 <= i < |pre[1..]| ensures !pre[1..][i].message.PoisonPill? {
          assert pre[1..][i] == pre[i + 1];
        }
      }
      DrainStopsAtPill(next, pre[1..], pill, post);
    }
  }
}
