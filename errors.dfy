/** The failures the runtime raises, by the Kotlin exception that carries them. */
module Errors {

  datatype Error =
    | ReservedName    // IllegalArgumentException: name in the `_system` name space
    | DuplicateName   // IllegalArgumentException: name already registered
    | SystemInactive  // IllegalStateException: the system has been shut down
    | AlreadyStarted  // IllegalStateException: `start` on a running actor
    | IllegalCaller   // IllegalStateException: `waitForShutdown` from another actor
    | AskTimeout      // AskTimeoutException: no reply within the timeout
    | Uninitialized   // UninitializedPropertyAccessException: a `lateinit` field read before `start`
}
