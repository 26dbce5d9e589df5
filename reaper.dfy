/** actors/Reaper.kt: an actor that creates and watches children and shuts
    its system down once none of them is left. */
module Reaper {

  import opened Wrappers
  import opened Errors
  import opened Messages
  import opened References
  import opened Runtime
  import M = Mailbox

  /** `receive` of the reaper, on the list of children it still waits for:
      a `Terminated` takes the sender's reference off the list, and if the
      list is then empty `shutdown()` is called (the second component).
      Every other message is ignored. */
  function OnMessage<A>(actors: seq<Ref<A>>, m: Msg, senderName: string): (r: (seq<Ref<A>>, bool))
    ensures !m.Terminated? ==> r == (actors, false)
  {
    if m.Terminated? then
      var rest := RemoveFirst(actors, senderName);
      (rest, |rest| == 0)
    else (actors, false)
  }

  /** A `Terminated` takes exactly one reference named like its sender off
      the list, when there is one, and `shutdown()` follows exactly when
      the list is left empty. */
  lemma TerminatedRemovesSender<A>(actors: seq<Ref<A>>, senderName: string)
    ensures var r := OnMessage(actors, Terminated, senderName);
            && multiset(Names(r.0)) == multiset(Names(actors)) - multiset{senderName}
            && (r.1 <==> r.0 == [])
            && (r.1 <==> |actors| == 0 || (|actors| == 1 && actors[0].name == senderName))
  {
    RemoveFirstNames(actors, senderName);
    assert |actors| == 1 ==> (ContainsName(actors, senderName) <==> actors[0].name == senderName);
  }

  /** The children the reaper still waits for after a `Terminated` from
      each of `senders`, in turn. */
  function Remaining<A>(actors: seq<Ref<A>>, senders: seq<string>): seq<Ref<A>>
    decreases |senders|
  {
    if senders == [] then actors
    else OnMessage(Remaining(actors, senders[..|senders| - 1]), Terminated, senders[|senders| - 1]).0
  }

  /** One more `Terminated` moves the run on by one sender, and the reaper
      calls `shutdown()` exactly when nothing remains after it. */
  lemma RemainingStep<A>(actors: seq<Ref<A>>, senders: seq<string>, n: string)
    ensures OnMessage(Remaining(actors, senders), Terminated, n)
              == (Remaining(actors, senders + [n]), Remaining(actors, senders + [n]) == [])
  {
    assert (senders + [n])[..|senders|] == senders;
  }

  /** Taking `n` off what is left after `a` is taking `a` and `n` off. */
  lemma LessOneMore<T>(x: multiset<T>, a: multiset<T>, n: T)
    ensures (x - a) - multiset{n} == x - (a + multiset{n})
  {
  }

  lemma InitAndLast<T>(s: seq<T>)
    requires s != []
    ensures multiset(s) == multiset(s[..|s| - 1]) + multiset{s[|s| - 1]}
  {
    assert s == s[..|s| - 1] + [s[|s| - 1]];
  }

  /** The names still waited for are those of the children less those of
      the senders so far. */
  lemma {:induction false} RemainingNames<A>(actors: seq<Ref<A>>, senders: seq<string>)
    ensures multiset(Names(Remaining(actors, senders))) == multiset(Names(actors)) - multiset(senders)
    decreases |senders|
  {
    if senders != [] {
      var init := senders[..|senders| - 1];
      var last := senders[|senders| - 1];
      RemainingNames(actors, init);
      TerminatedRemovesSender(Remaining(actors, init), last);
      InitAndLast(senders);
      LessOneMore(multiset(Names(actors)), multiset(init), last);
    }
  }

  /** Nothing is left exactly when the senders account for every child the
      reaper was waiting for. */
  lemma NothingRemainsIffAllTerminated<A>(actors: seq<Ref<A>>, senders: seq<string>)
    ensures Remaining(actors, senders) == [] <==> multiset(Names(actors)) <= multiset(senders)
  {
    var left := Remaining(actors, senders);
    RemainingNames(actors, senders);
    assert |multiset(Names(left))| == |left|;
    var x := multiset(Names(actors));
    var y := multiset(senders);
    if x <= y {
      assert x - y == multiset{};
    } else {
      var z :| x[z] > y[z];
      assert (x - y)[z] > 0;
    }
  }

  /** The reaper calls `shutdown()` on the `Terminated` from `n`, after those
      from `senders`, exactly when all of them together account for every
      child it was waiting for. */
  lemma ShutdownIffAllTerminated<A>(actors: seq<Ref<A>>, senders: seq<string>, n: string)
    ensures (OnMessage(Remaining(actors, senders), Terminated, n).1
             <==> multiset(Names(actors)) <= multiset(senders + [n]))
  {
    RemainingStep(actors, senders, n);
    NothingRemainsIffAllTerminated(actors, senders + [n]);
  }

  /** When every child sends exactly one `Terminated`, nothing remains
      after the last one and something remains after each earlier one. */
  lemma ShutdownAtLastTerminated<A>(actors: seq<Ref<A>>, senders: seq<string>, k: nat)
    requires multiset(senders) == multiset(Names(actors))
    requires k <= |senders|
    ensures Remaining(actors, senders[..k]) == [] <==> k == |senders|
  {
    NothingRemainsIffAllTerminated(actors, senders[..k]);
    if k < |senders| {
      assert |multiset(Names(actors))| == |senders| by {
        assert |multiset(senders)| == |senders|;
      }
      FewerSendersDoNotCover(multiset(Names(actors)), senders, k);
    } else {
      assert senders[..k] == senders;
    }
  }

  /** Fewer names than `x` holds cannot account for all of `x`. */
  lemma FewerSendersDoNotCover(x: multiset<string>, senders: seq<string>, k: nat)
    requires k < |senders| && |x| == |senders|
    ensures !(x <= multiset(senders[..k]))
  {
    var seen := multiset(senders[..k]);
    assert |seen| == k;
    SubMultisetIsSmaller(x, seen);
  }

  lemma SubMultisetIsSmaller<T>(x: multiset<T>, y: multiset<T>)
    ensures x <= y ==> |x| <= |y|
  {
    if x <= y {
      assert y == x + (y - x);
    }
  }

  /** A `Terminated` from an actor the reaper does not wait for leaves the
      list as it is, but still calls `shutdown()` when the list is empty. */
  lemma StrangerTerminated<A>(actors: seq<Ref<A>>, n: string)
    requires !ContainsName(actors, n)
    ensures OnMessage(actors, Terminated, n) == (actors, actors == [])
  {
    RemoveFirstUnchanged(actors, n);
  }

  lemma {:induction false} RemoveFirstUnchanged<A>(s: seq<Ref<A>>, n: string)
    requires !ContainsName(s, n)
    ensures RemoveFirst(s, n) == s
    decreases |s|
  {
    if s != [] {
      assert s[0].name != n;
      RemoveFirstUnchanged(s[1..], n);
      assert [s[0]] + s[1..] == s;
    }
  }

  /** What `shutdown()` asks of the actors it reaches. */
  ghost predicate ShutdownReady(sys: ActorSystem, F: set<Actor>)
    reads sys, F
  {
    sys.Valid() && CoversAll(Snapshot(F), InOrder(sys.registry, sys.order) + [sys.DeadLetterRef()])
  }

  /** The `Reaper` actor: its `Actor` part and the children it still waits
      for. */
  class Reaper {
    const base: Actor
    var actors: seq<ActorRef>

    constructor()
      ensures fresh(base) && base.State() == M.Initial() && actors == []
    {
      base := new Actor();
      actors := [];
    }

    /** The `actor(name, child)` override: the child is created and watched
        as by any actor, and then remembered. */
    method CreateChild(name: string, child: Actor, current: ActorRef) returns (r: Result<ActorRef, Error>)
      requires base.system.Some? ==> base.system.value.Valid()
      modifies this`actors
      modifies if base.system.Some? then {base.system.value, child, base.system.value.deadLetterActor} else {}
      ensures r.Ok? ==> actors == old(actors) + [r.value]
      ensures r.Err? ==> actors == old(actors)
      ensures old(base.system).None? ==> r == Err(Uninitialized)
      ensures old(base.system).Some? ==>
                var sys := old(base.system).value;
                var e := RegistrationError(true, name, old(sys.registry).Keys, old(sys.active), old(child.running));
                && sys.Valid() && sys.active == old(sys.active)
                && (child != sys.deadLetterActor ==> sys.deadLetterActor.State() == old(sys.deadLetterActor.State()))
                && (e.Some? ==> r == Err(e.value) && sys.registry == old(sys.registry) && sys.order == old(sys.order)
                                && child.State() == old(child.State()))
                && (e.None? ==> sys.registry == old(sys.registry)[name := Ref(child, name)]
                                && sys.order == old(sys.order) + [name])
                && (e.None? && old(base.self).None? && base != child ==>
                      r == Err(Uninitialized) && child.State() == M.Start(old(child.State()), child, name, sys).value)
                && (e.None? && (old(base.self).Some? || base == child) ==>
                      && r == Ok(Ref(child, name))
                      && child.State() == M.Enqueue(M.Start(old(child.State()), child, name, sys).value,
                                                    Envelope(Watch, current)))
    {
      r := Runtime.CreateChild(base, name, child, current);
      if r.Ok? {
        actors := actors + [r.value];
      }
    }

    /** `receive(message)`, called from the `mainLoop` of the reaper with
        its `_sender` set; `current` is the reaper's own reference there. */
    method Receive(m: Msg, current: ActorRef, ghost F: set<Actor>) returns (o: Outcome<Error>)
      requires base.system.Some? ==> ShutdownReady(base.system.value, F)
      modifies this`actors, F
      modifies (if base.system.Some? then {base.system.value} else {})`active
      ensures old(base.system).Some? ==>
                var sys := old(base.system).value;
                sys.Valid() && sys.registry == old(sys.registry) && sys.order == old(sys.order)
      ensures m.Terminated? && old(base.sender).None? ==>
                o == Fail(Uninitialized) && actors == old(actors) && Snapshot(F) == old(Snapshot(F))
                && (old(base.system).Some? ==> var sys := old(base.system).value; sys.active == old(sys.active))
      ensures !m.Terminated? ==>
                o == Pass && actors == old(actors) && Snapshot(F) == old(Snapshot(F))
                && (old(base.system).Some? ==> var sys := old(base.system).value; sys.active == old(sys.active))
      ensures m.Terminated? && old(base.sender).Some? ==>
                var (rest, stop) := OnMessage(old(actors), m, old(base.sender).value.name);
                && actors == rest
                && (!stop ==> o == Pass && Snapshot(F) == old(Snapshot(F))
                              && (old(base.system).Some? ==> var sys := old(base.system).value; sys.active == old(sys.active)))
                && (stop && old(base.system).None? ==> o == Fail(Uninitialized) && Snapshot(F) == old(Snapshot(F)))
                && (stop && old(base.system).Some? ==>
                      var sys := old(base.system).value;
                      && (!old(sys.active) ==> o == Fail(SystemInactive) && Snapshot(F) == old(Snapshot(F)))
                      && (old(sys.active) ==>
                            Effect(Snapshot(F), o)
                              == SendAll(old(Snapshot(F)), old(InOrder(sys.registry, sys.order)) + [sys.DeadLetterRef()],
                                         Envelope(PoisonPill, current), current))
                      && sys.active == (old(sys.active) && o.Fail?))
    {
      o := Pass;
      if m.Terminated? {
        if base.sender.None? {
          return Fail(Uninitialized);
        }
        var (rest, stop) := OnMessage(actors, m, base.sender.value.name);
        actors := rest;
        if stop {
          if base.system.None? {
            return Fail(Uninitialized);
          }
          o := base.system.value.Shutdown(current, F);
        }
      }
    }
  }
}
