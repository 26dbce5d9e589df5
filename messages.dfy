/** The messages of ActorSystem.kt and the envelope of Actor.kt.

    The Kotlin payload is `Any`; here it is a closed union of the reserved
    control messages plus an opaque user payload. */
module Messages {

  import opened Wrappers

  datatype Msg =
    | PoisonPill
    | Terminated
    | Watch
    | Forward(message: Msg)
    | DeadLetter(message: Msg)
    | User(payload: string)

  /** `ActorMessageWrapper(message, sender)`; `R` is the reference type. */
  datatype Envelope<R> = Envelope(message: Msg, sender: R)

  /** What the dispatch loop does with a message it has taken. */
  datatype Action = Deliver(message: Msg) | Halt | Subscribe

  /** The `when (message)` of `mainLoop`: a `Forward` is unwrapped and handed
      to `receive` whatever it carries, `PoisonPill` stops, `Watch`
      subscribes the sender, and everything else goes to `receive`. */
  function Classify(m: Msg): (a: Action)
    ensures a.Halt? <==> m.PoisonPill?
    ensures a.Subscribe? <==> m.Watch?
    ensures a.Deliver? <==> !m.PoisonPill? && !m.Watch?
    ensures m.Forward? ==> a == Deliver(m.message)
    ensures a.Deliver? && !m.Forward? ==> a.message == m
  {
    match m
    case Forward(inner) => Deliver(inner)
    case PoisonPill => Halt
    case Watch => Subscribe
    case _ => Deliver(m)
  }

  /** The messages `receive` is handed when the loop takes `envs` in order
      and none of them stops the actor. */
  function Handed<R>(envs: seq<Envelope<R>>): (ms: seq<Msg>)
    ensures |ms| <= |envs|
  {
    if envs == [] then []
    else
      match Classify(envs[0].message)
      case Deliver(m) => [m] + Handed(envs[1..])
      case _ => Handed(envs[1..])
  }

  lemma {:induction false} HandedAppend<R>(a: seq<Envelope<R>>, b: seq<Envelope<R>>)
    ensures Handed(a + b) == Handed(a) + Handed(b)
  {
    if a == [] {
      assert a + b == b;
    } else {
      assert (a + b)[1..] == a[1..] + b;
      HandedAppend(a[1..], b);
    }
  }

  /** FIFO per mailbox: of two envelopes that both reach `receive` (any
      message but `PoisonPill` and `Watch`), the one enqueued first is
      handed over at an earlier position, a `Forward` unwrapped. */
  lemma FifoOrder<R>(pre: seq<Envelope<R>>, e1: Envelope<R>, mid: seq<Envelope<R>>,
                     e2: Envelope<R>, post: seq<Envelope<R>>)
    requires Classify(e1.message).Deliver? && Classify(e2.message).Deliver?
    ensures var hs := Handed(pre + [e1] + mid + [e2] + post);
            var i := |Handed(pre)|;
            var j := |Handed(pre)| + 1 + |Handed(mid)|;
            i < j < |hs| && hs[i] == Classify(e1.message).message && hs[j] == Classify(e2.message).message
  {
    HandedAppend(pre + [e1] + mid + [e2], post);
    HandedAppend(pre + [e1] + mid, [e2]);
    HandedAppend(pre + [e1], mid);
    HandedAppend(pre, [e1]);
    assert Handed([e1]) == [Classify(e1.message).message] by { assert [e1][1..] == []; }
    assert Handed([e2]) == [Classify(e2.message).message] by { assert [e2][1..] == []; }
  }

  /** `DeadLetterActor.receive` casts its message to `DeadLetter` and hands
      the wrapped message to the handler; the cast fails on anything else. */
  function DeadLetterHandlerInput(m: Msg): (r: Option<Msg>)
    ensures r.Some? <==> m.DeadLetter?
    ensures forall x :: m == DeadLetter(x) ==> r == Some(x)
  {
    if m.DeadLetter? then Some(m.message) else None
  }
}
