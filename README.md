# alkali actor runtime in Dafny

alkali is a small Kotlin actor library. An `ActorSystem` owns a registry of
named actors. Each actor runs its own thread, which takes
`ActorMessageWrapper(message, sender)` envelopes from a FIFO inbox:

- `PoisonPill` stops the actor.
- `Watch` subscribes the sender to the actor's termination.
- `Forward(m)` hands `m` to `receive`.
- Anything else is handed to `receive` as it is.

When the loop ends, every watcher is sent `Terminated`. A message sent to
an actor that no longer runs goes to the system's dead-letter actor,
wrapped once in `DeadLetter`. `shutdown()` sends a `PoisonPill` to every
registered actor and to the dead-letter actor, then marks the system
inactive. An `ActorReference` is a handle to an actor. Two references are
equal when their names are, and `hashCode` is the name's Java hash. The
`Reaper` actor creates children, watches them, and shuts the system down
once all of them have terminated.

The model has these modules:

- `Wrappers`, `Errors`: `Option`, `Result` and `Outcome`, and one error per
  exception the runtime raises.
- `NameSpace`: the reserved `_system` name space and the three internal
  names.
- `JavaString`: `String.hashCode` over the UTF-16 encoding of a name, with
  32-bit wrap-around written out.
- `Messages`: the control messages, the envelope, and the dispatch of
  `mainLoop` (`Classify`).
- `References`: the pure part of `ActorReference`, which is `equals`,
  `hashCode` and `toString`. It also holds the two collection operations
  the core relies on:
  - `+=` on the insertion-ordered watcher set;
  - `-=` on the reaper's list, which removes the first equal element.
- `Mailbox`: one actor's fields as a value, and the pure meaning of
  `start`, `stop`, `send` on a running actor, one pass of `mainLoop`, and
  the loop run to completion (`Drain`).
- `Runtime`:
  - the classes `Actor` and `ActorSystem`, whose methods update their
    fields in place;
  - the delegating half of `ActorReference`: `send`, `watch` and `ask`;
  - `Actor.actor(name, child)`.

  Effects that reach several actors are specified against pure functions
  on a `World`, a map from actors to their states. These effects are a
  send that falls back to the dead-letter actor, the shutdown broadcast,
  and the `Terminated` notifications. Each such method takes the set of
  actors it may touch as a ghost frame `F`, and its postcondition equates
  the new states of `F` with the pure function applied to the old ones.
- `Reaper`: the reaper's bookkeeping as pure functions (`OnMessage`,
  `Remaining`) with lemmas about a whole run of `Terminated` messages, and
  the class `Reaper` with its `actor` override and `receive`.

The thread-local "current actor" of a calling thread is an explicit
`current` parameter. It is the sender of everything sent with the infix
`send`: by the dead-letter route, by `shutdown`, by `watch`, and by the
`finally` block of an actor's thread (where it is the actor itself).

If `receive` throws, the default `onException` rethrows the exception.
The loop is then left with `_running` still true, and only the `finally`
block runs. Later sends to that actor are queued and never taken, and
`start` refuses to restart it. `Runtime.SendAfterCrashQueues` states this.

## Model

Source paths are relative to the repository root.

| member | source | states |
|---|---|---|
| References.EqualsIsNameEquality | src/main/kotlin/net/t53k/alkali/ActorReference.kt:42-51 | `equals` is reflexive, symmetric and transitive, false for `null`, and true exactly when the names agree |
| References.Equals | src/main/kotlin/net/t53k/alkali/ActorReference.kt:42-51 | `equals` holds of a reference and itself, and equal references have equal hash codes and equal renderings |
| References.EqualsImpliesSameHash | src/main/kotlin/net/t53k/alkali/ActorReference.kt:53-55 | equal references have equal hash codes |
| References.HashCode | src/main/kotlin/net/t53k/alkali/ActorReference.kt:53-55 | the hash is a 32-bit `Int` |
| JavaString.HashIsWrappedPolynomial | src/main/kotlin/net/t53k/alkali/ActorReference.kt:54 | the name's hash, computed with wrap-around at each step, is the closed-form polynomial `u[0]*31^(n-1) + ... + u[n-1]` of its UTF-16 code units reduced to 32-bit two's complement |
| JavaString.HashCode | src/main/kotlin/net/t53k/alkali/ActorReference.kt:54 | the hash, a fold over the UTF-16 code units, lies in the `Int` range and is 0 for the empty name |
| JavaString.CodeUnits | src/main/kotlin/net/t53k/alkali/ActorReference.kt:54 | a character in the Basic Multilingual Plane is one code unit, its value. Any other is a high surrogate then a low surrogate, which decode back to the character |
| JavaString.Utf16 | src/main/kotlin/net/t53k/alkali/ActorReference.kt:54 | a string of `n` characters has between `n` and `2n` code units |
| JavaString.BmpIsOneUnitPerChar | src/main/kotlin/net/t53k/alkali/ActorReference.kt:54 | a name inside the Basic Multilingual Plane has one code unit per character, each the character's value, so its hash folds over the characters themselves |
| JavaString.SupplementaryCharacterHash | src/main/kotlin/net/t53k/alkali/ActorReference.kt:54 | U+1F600 is hashed as its surrogates 0xD83D and 0xDE00, to 1772899 |
| References.ToStringRoundTrip | src/main/kotlin/net/t53k/alkali/ActorReference.kt:57-59 | the name can be read back from `toString` |
| References.ToString | src/main/kotlin/net/t53k/alkali/ActorReference.kt:57-59 | the rendering is the fixed prefix `ActorReference(actor='`, then exactly the name, then the suffix `')` |
| References.ToStringMatchesEquals | src/main/kotlin/net/t53k/alkali/ActorReference.kt:42-59 | two references print alike exactly when they are equal |
| References.AddToSet | src/main/kotlin/net/t53k/alkali/Actor.kt:80 | `_watchers += sender()` leaves the set unchanged if an equal reference is present, and otherwise appends |
| References.AddToSetProperties | src/main/kotlin/net/t53k/alkali/Actor.kt:80 | the watcher set stays free of equal references, gains the sender, and a repeated add changes nothing |
| References.RemoveFirst | src/main/kotlin/net/t53k/alkali/actors/Reaper.kt:22 | the list shrinks by one exactly when it held a reference with that name |
| References.RemoveFirstNames | src/main/kotlin/net/t53k/alkali/actors/Reaper.kt:22 | `actors -= sender()` removes exactly one occurrence of the sender's name, when present |
| References.RemoveFirstIsDeletion | src/main/kotlin/net/t53k/alkali/actors/Reaper.kt:22 | the result is the list with its first match cut out, the rest in order |
| References.ContainsNameIffInNames | src/main/kotlin/net/t53k/alkali/ActorReference.kt:42-51 | a list holds a reference equal to one named `n` exactly when `n` is among its names |
| References.IndexOf | src/main/kotlin/net/t53k/alkali/actors/Reaper.kt:22 | the position found holds the name and no earlier position does |
| NameSpace.Qualify | src/main/kotlin/net/t53k/alkali/ActorSystem.kt:46 | a qualified name is `_system`, then `/`, then the actor name |
| NameSpace.QualifiedIsReserved | src/main/kotlin/net/t53k/alkali/ActorSystem.kt:46-47 | every qualified name is in the reserved name space |
| NameSpace.ReservedIffPrefix | src/main/kotlin/net/t53k/alkali/ActorSystem.kt:47 | a name is reserved exactly when it starts with `_system`, with or without the separator |
| NameSpace.HasNameSpace | src/main/kotlin/net/t53k/alkali/ActorSystem.kt:47 | `hasNameSpace` holds exactly when the name is `_system` followed by anything |
| NameSpace.UnderscoreNameIsReserved | src/main/kotlin/net/t53k/alkali/ActorSystem.kt:98-100 | `_system____` is refused as reserved, and `dummy` is not |
| NameSpace.InternalNames | src/main/kotlin/net/t53k/alkali/ActorSystem.kt:85-86 | the main, dead-letter and anonymous names are reserved and pairwise distinct |
| NameSpace.UnreservedIsNotMain | src/main/kotlin/net/t53k/alkali/ActorSystem.kt:97-101 | a name accepted by the public `actor(name, actor)` is never the main actor's name |
| Messages.Classify | src/main/kotlin/net/t53k/alkali/Actor.kt:77-82 | `PoisonPill` stops, `Watch` subscribes, `Forward(m)` delivers `m`, and every other message is delivered unchanged |
| Messages.HandedAppend | src/main/kotlin/net/t53k/alkali/Actor.kt:73-84 | what `receive` is handed from two runs of envelopes is what it is handed from each, in order |
| Messages.FifoOrder | src/main/kotlin/net/t53k/alkali/Actor.kt:65-84 | of two envelopes that both reach `receive` (any message but `PoisonPill` and `Watch`), the one queued first is handed over first, a `Forward` unwrapped |
| Messages.DeadLetterHandlerInput | src/main/kotlin/net/t53k/alkali/ActorSystem.kt:70-73 | the dead-letter handler gets the wrapped message of a `DeadLetter`, and the cast fails on anything else |
| Mailbox.Start | src/main/kotlin/net/t53k/alkali/Actor.kt:44-61 | `start` is refused exactly when the actor runs. Otherwise the actor runs, knows its reference and system, and keeps its inbox, watchers and last sender |
| Mailbox.Stop | src/main/kotlin/net/t53k/alkali/Actor.kt:94-96 | only `_running` changes, and it becomes false |
| Mailbox.Enqueue | src/main/kotlin/net/t53k/alkali/Actor.kt:66-67 | only the inbox changes, and the envelope joins its back |
| Mailbox.Step | src/main/kotlin/net/t53k/alkali/Actor.kt:74-82 | a stopped actor leaves the loop and an empty inbox blocks. Otherwise the head is taken and the rest of the inbox kept |
| Mailbox.StepTakesHead | src/main/kotlin/net/t53k/alkali/Actor.kt:73-84 | a step takes the head, records its sender, and changes only what its message calls for (run flag, watcher set) |
| Mailbox.WatchIsIdempotent | src/main/kotlin/net/t53k/alkali/Actor.kt:80 | a second `Watch` from the same sender leaves the watchers as the first did |
| Mailbox.StepKeepsWatchersDistinct | src/main/kotlin/net/t53k/alkali/Actor.kt:80 | a pass of the loop never puts two equal references in the watcher set |
| Mailbox.DrainKeepsWatchersDistinct | src/main/kotlin/net/t53k/alkali/Actor.kt:73-84 | nor does the whole loop |
| Mailbox.DrainDone | src/main/kotlin/net/t53k/alkali/Actor.kt:74 | a stopped actor takes nothing more, and an empty inbox blocks |
| Mailbox.DrainEnds | src/main/kotlin/net/t53k/alkali/Actor.kt:73-84 | `Drain`, the loop run to completion, ends only with the actor stopped or its inbox empty, and what is left in the inbox is a suffix of what was there |
| Mailbox.DrainWithoutPill | src/main/kotlin/net/t53k/alkali/Actor.kt:73-84 | without a `PoisonPill` the loop empties the inbox, hands `receive` every delivered message in order, applies every `Watch`, and keeps running |
| Mailbox.DrainStopsAtPill | src/main/kotlin/net/t53k/alkali/Actor.kt:73-84 | a `PoisonPill` stops the loop where it stands: the messages before it are handed over in order and those after it stay queued |
| Runtime.DeadLetterSpec | src/main/kotlin/net/t53k/alkali/ActorSystem.kt:167-171 | a `DeadLetter` is dropped. Anything else is wrapped once and queued at a running dead-letter actor, sent by the current actor |
| Runtime.SendSpec | src/main/kotlin/net/t53k/alkali/Actor.kt:65-71 | a running actor queues the envelope. A stopped actor is unchanged and the message takes the dead-letter route. A failure changes nothing |
| Runtime.SendKeepsShape | src/main/kotlin/net/t53k/alkali/Actor.kt:65-71 | a send changes inboxes and nothing else |
| Runtime.SendGrows | src/main/kotlin/net/t53k/alkali/Actor.kt:65-71 | a send never takes anything out of an inbox |
| Runtime.SendAllToStartedPasses | src/main/kotlin/net/t53k/alkali/ActorSystem.kt:156-157 | sending to actors that were all started never raises |
| Runtime.SendAll | src/main/kotlin/net/t53k/alkali/ActorSystem.kt:156 | the `forEach` send over no targets passes and changes nothing, and over one target it is exactly that target's `send` |
| Runtime.SendAllKeepsShape | src/main/kotlin/net/t53k/alkali/ActorSystem.kt:156-157 | a broadcast changes inboxes and nothing else |
| Runtime.SendAllGrows | src/main/kotlin/net/t53k/alkali/ActorSystem.kt:156-157 | a broadcast keeps every inbox's contents, in order |
| Runtime.SendAllReachesRunning | src/main/kotlin/net/t53k/alkali/Actor.kt:57 | after a broadcast that passes, every target that ran has the envelope queued behind what it already held |
| Runtime.ShutdownPoisonsRunning | src/main/kotlin/net/t53k/alkali/ActorSystem.kt:153-159 | with every actor started, shutdown's broadcast passes and changes only inboxes. It queues the pill at every running registered actor and at a running dead-letter actor, and stops none of them itself |
| Runtime.DeadLetterWrapsOnce | src/main/kotlin/net/t53k/alkali/ActorSystem.kt:167-171 | what reaches the dead-letter inbox is wrapped exactly once, and the handler is handed the original message |
| Runtime.SendAfterCrashQueues | src/main/kotlin/net/t53k/alkali/Actor.kt:53-58 | after the `finally` block of a loop left by an exception, the actor still counts as running: later sends are queued, not dead-lettered, and `start` refuses it |
| Runtime.RegistrationError | src/main/kotlin/net/t53k/alkali/ActorSystem.kt:96-117 | registration succeeds exactly when the name is unreserved (where checked), new, the system active and the actor not running. Otherwise it reports the first failing guard, in that order |
| Runtime.GuardOrder | src/main/kotlin/net/t53k/alkali/ActorSystem.kt:96-117 | a duplicate name is reported as such even on an inactive system, and the test's `_system____` is refused as reserved (the general rule is in `RegistrationError`) |
| Runtime.InOrder | src/main/kotlin/net/t53k/alkali/ActorSystem.kt:156 | the registry, a `mutableMapOf` and so insertion-ordered, is iterated in registration order: each position holds the reference registered under that name |
| Runtime.Broadcast | src/main/kotlin/net/t53k/alkali/ActorSystem.kt:156 | the `forEach` send loop has exactly the effect of `SendAll` on the actors it reaches |
| Runtime.Actor.constructor | src/main/kotlin/net/t53k/alkali/Actor.kt:29-36 | a new actor is stopped, with an empty inbox, no watchers and no thread |
| Runtime.Actor.Start | src/main/kotlin/net/t53k/alkali/Actor.kt:44-61 | the new state is `Mailbox.Start`'s, and the reference returned carries the name |
| Runtime.Actor.Send | src/main/kotlin/net/t53k/alkali/Actor.kt:65-71 | the actors of the frame end as `SendSpec` says. A running actor queues the envelope |
| Runtime.Actor.Stop | src/main/kotlin/net/t53k/alkali/Actor.kt:94-96 | the new state is `Mailbox.Stop`'s |
| Runtime.Actor.Step | src/main/kotlin/net/t53k/alkali/Actor.kt:74-82 | one pass of the loop body, as `Mailbox.Step`, keeping the watcher set free of equal references |
| Runtime.Actor.MainLoop | src/main/kotlin/net/t53k/alkali/Actor.kt:73-84 | the loop ends in `Drain`'s state, having handed `receive` `Drain`'s messages, and keeps the watcher set free of equal references |
| Runtime.Actor.Exit | src/main/kotlin/net/t53k/alkali/Actor.kt:55-58 | the thread ends and every watcher, in order, is sent `Terminated` by the actor itself, as `ExitSpec` |
| Runtime.ExitSpec | src/main/kotlin/net/t53k/alkali/Actor.kt:55-58 | the `finally` block ends the thread and leaves the run flag as it was. Every other actor keeps everything but its inbox |
| Runtime.ExitNotifiesRunningWatchers | src/main/kotlin/net/t53k/alkali/Actor.kt:55-58 | when the notifications pass, every watcher that still runs has `Terminated` from the exiting actor queued behind what it already held |
| Runtime.ActorSystem.constructor | src/main/kotlin/net/t53k/alkali/ActorSystem.kt:90-94 | the main actor is started and is the only registered actor. The dead-letter actor is started but not registered. The system is active |
| Runtime.ActorSystem.PassIfActive | src/main/kotlin/net/t53k/alkali/ActorSystem.kt:161-163 | passes exactly when the system is active |
| Runtime.ActorSystem.IsActive | src/main/kotlin/net/t53k/alkali/ActorSystem.kt:165 | `isActive` is true exactly when `passIfActive` passes |
| Runtime.ActorSystem.Find | src/main/kotlin/net/t53k/alkali/ActorSystem.kt:124-125 | finds exactly the registered names, and the reference found carries the name asked for |
| Runtime.ActorSystem.StartActor | src/main/kotlin/net/t53k/alkali/ActorSystem.kt:114-117 | refused on an inactive system or a running actor; otherwise the actor starts under the name |
| Runtime.ActorSystem.RegisterUnchecked | src/main/kotlin/net/t53k/alkali/ActorSystem.kt:104-112 | a new name is started and registered at the end of the iteration order. A failure changes neither registry nor actor |
| Runtime.ActorSystem.Register | src/main/kotlin/net/t53k/alkali/ActorSystem.kt:96-102 | as `RegisterUnchecked`, with reserved names refused first |
| Runtime.ActorSystem.StartAnonymous | src/main/kotlin/net/t53k/alkali/ActorSystem.kt:119-122 | the actor starts under `_system/anonymous` without being registered |
| Runtime.ActorSystem.DeadLetter | src/main/kotlin/net/t53k/alkali/ActorSystem.kt:167-171 | the effect is `DeadLetterSpec`'s |
| Runtime.ActorSystem.Shutdown | src/main/kotlin/net/t53k/alkali/ActorSystem.kt:153-159 | an inactive system fails and nothing changes. Otherwise a `PoisonPill` goes to every registered actor in order, then to the dead-letter actor, and the system becomes inactive unless a send failed |
| Runtime.ActorSystem.WaitForShutdown | src/main/kotlin/net/t53k/alkali/ActorSystem.kt:144-145 | only the main actor may wait. Every other caller fails |
| Runtime.ActorSystem.Ask | src/main/kotlin/net/t53k/alkali/ActorSystem.kt:127-136 | an inactive system fails. Otherwise a fresh anonymous asking actor sends the question as its own sender. The reply or a timeout is returned, and the asking actor is sent a `PoisonPill` |
| Runtime.ActorSystem.SpawnAsking | src/main/kotlin/net/t53k/alkali/ActorSystem.kt:128-129 | the asking actor is started anonymously and its `before` has sent the question |
| Runtime.AskingBefore | src/main/kotlin/net/t53k/alkali/ActorSystem.kt:35-37 | the asking actor sends the question to the target, with itself as sender and current actor |
| Runtime.SendFrom | src/main/kotlin/net/t53k/alkali/ActorReference.kt:34-36 | `send(message, sender)` has the effect of the actor's `send` |
| Runtime.SendImplicit | src/main/kotlin/net/t53k/alkali/ActorReference.kt:30-32 | infix `send` uses the current actor as sender |
| Runtime.WatchRef | src/main/kotlin/net/t53k/alkali/ActorReference.kt:38-40 | `a watch b` sends `Watch` to `b` with the current actor as sender, whatever `a` is |
| Runtime.AskRef | src/main/kotlin/net/t53k/alkali/ActorReference.kt:26-28 | `ask` on a reference is the system's `ask` on it |
| Runtime.CreateChild | src/main/kotlin/net/t53k/alkali/Actor.kt:38-42 | `Register`'s guards decide the result, and the system stays valid and active as it was. On success the child is started, registered and appended to the iteration order, then sent `Watch` by the current actor. The dead-letter actor is untouched unless it is the child. An unstarted parent other than the child fails with `Uninitialized` after the child is registered |
| Reaper.OnMessage | src/main/kotlin/net/t53k/alkali/actors/Reaper.kt:19-28 | every message but `Terminated` is ignored |
| Reaper.TerminatedRemovesSender | src/main/kotlin/net/t53k/alkali/actors/Reaper.kt:21-25 | `Terminated` removes one occurrence of the sender's name. Shutdown follows exactly when the list was empty, or held only the sender |
| Reaper.RemainingNames | src/main/kotlin/net/t53k/alkali/actors/Reaper.kt:22 | the names still awaited are the children's names less the senders' names so far |
| Reaper.NothingRemainsIffAllTerminated | src/main/kotlin/net/t53k/alkali/actors/Reaper.kt:22-25 | nothing is left exactly when the senders account for every child |
| Reaper.ShutdownIffAllTerminated | src/main/kotlin/net/t53k/alkali/actors/Reaper.kt:21-25 | a `Terminated` triggers shutdown exactly when it and the earlier ones account for every child |
| Reaper.ShutdownAtLastTerminated | src/main/kotlin/net/t53k/alkali/actors/Reaper.kt:21-25 | when each child terminates once, the reaper shuts down at the last `Terminated` and never before |
| Reaper.StrangerTerminated | src/main/kotlin/net/t53k/alkali/actors/Reaper.kt:21-25 | a `Terminated` from an actor the reaper does not wait for leaves the list alone, but still triggers shutdown when the list is empty |
| Reaper.Reaper.constructor | src/main/kotlin/net/t53k/alkali/actors/Reaper.kt:7-8 | a new reaper waits for no child |
| Reaper.Reaper.CreateChild | src/main/kotlin/net/t53k/alkali/actors/Reaper.kt:10-14 | a child is remembered exactly when its creation succeeds. The creation has `Actor.actor`'s outcome and its effect on the registry, the iteration order, the child and the dead-letter actor |
| Reaper.Reaper.Receive | src/main/kotlin/net/t53k/alkali/actors/Reaper.kt:19-28 | the list becomes `OnMessage`'s. When that calls for it, the system's `shutdown` runs with `Shutdown`'s effect. The system stays valid, with its registry and order untouched, and on every other path its `active` flag and all actors stay as they were |

## Left out

- Threads, blocking and `@Synchronized`:
  - each operation is one atomic step, and the interleaving of actor threads is not modelled;
  - `_inbox.take()` blocking on an empty inbox is the `Blocked` outcome of a loop step;
  - `waitForShutdown`'s polling and thread joins are not modelled.
- The thread-local current actor is the explicit `current` parameter. On a thread that never set one, `currentActor()` fails Kotlin's null check on its non-null return type, so the infix `send`, `watch` and `waitForShutdown` throw there. That exception path is not modelled.
- A Java `String` may hold an unpaired surrogate, which a Dafny `string` of Unicode scalar values cannot. Actor names containing one, and their hash codes, are not modelled.
- `ask`'s timeout and the reply channel: the reply, or its absence, is the parameter `reply`. The asking actor's `receive`, which puts the reply on the channel, runs on its own thread and is not modelled.
- User code is opaque: `receive`, `before`, `after`, and an overridden `onException`. The loop reports what it hands to `receive`. The exception path is modelled by calling `Exit` on an actor that still runs, which is what the default rethrowing `onException` leads to. An exception thrown by `before` ends the thread without the `finally` block. That case is not modelled.
- Mailbox.Drain: models a `receive` that returns normally and never calls `stop()`. `stop()` called from `receive` is covered by `Stop` and `Step`, not by the loop lemmas.
- The reaper's `starter` (run in `before`) is an arbitrary user lambda and is not modelled. `Reaper.CreateChild` is what it calls.
- `DefaultActor` and `DeadLetterActor` are plain `Actor`s in the model. Their handlers come from `ActorSystemBuilder`, which is not modelled beyond `Messages.DeadLetterHandlerInput`.
- Runtime.ActorSystem.Shutdown: requires that every registered actor and the dead-letter actor be in the frame. With a registry built only through `Register`, every actor has been started and this always holds.
- `ActorReference`'s private `system` field is dropped: a reference is its actor and its name, and `AskRef` takes the system as a parameter. References are compared by name only, as `equals` does.
- `ActorFactory.kt`, `Actors.kt` and the `test` DSL are not part of this model.
- `ActorSystem.currentActor(actor)` only sets the thread-local. It is covered by the `current` parameter.
