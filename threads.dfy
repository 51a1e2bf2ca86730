/** The values the thread pools hold in place of real threads and closures. */
module Threads {
  /** The `JoinHandle` of the thread spawned for the worker with this id. */
  datatype JoinHandle = JoinHandle(worker: nat)

  /** A boxed `FnOnce` closure; here a token naming the connection it would handle. */
  datatype Job = Job(connection: nat)
}
