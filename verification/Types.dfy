/** Values shared by the three storage backends, the queue manager and the mailbox. */
module Types {

  datatype Option<+T> = None | Some(value: T)

  type Byte = x: int | 0 <= x < 256

  /** Identity of a message: the queue it was published to and its generated id.
      Keys.Render gives the string the source passes around. */
  datatype Key = Key(queue: string, id: string)

  /** A message as handed to enqueue and as returned by a lease. */
  datatype Message = Message(
    key: Key,
    payload: string,
    attributes: string,
    priority: int,
    attempt: int,
    createdAt: int,
    availableAt: int,
    target: string)

  /** Times are milliseconds on the wall clock; the generated lease id is not
      modelled because no backend ever compares it. */
  datatype LeaseToken = LeaseToken(messageKey: Key, consumerId: string, leaseUntil: int)

  datatype RetryPolicy = RetryPolicy(limit: int, backoff: string, initialDelaySec: int, maxDelaySec: int)

  datatype DlqPolicy = DlqPolicy(enabled: bool, queue: string, retentionDays: int)

  datatype QueuePolicy = QueuePolicy(visibilityTimeoutSec: int, retry: RetryPolicy, dlq: DlqPolicy)

  /** The fields dlqReason and dlqAt written into an envelope. */
  datatype DlqNote = DlqNote(reason: string, at: int)

  /** One row of a sweep snapshot. */
  datatype ExpiredLease = ExpiredLease(key: Key, attempt: int)

  /** The policy registered for a queue. */
  function PolicyOf(policies: map<string, QueuePolicy>, queue: string): Option<QueuePolicy> {
    if queue in policies then Some(policies[queue]) else None
  }

  function Max(a: int, b: int): int {
    if a >= b then a else b
  }

  function Min(a: int, b: int): int {
    if a <= b then a else b
  }
}

/** Where a statement or file operation may fail for reasons outside the program. */
module Faults {

  method Fault(faulty: bool) returns (fails: bool)
    ensures fails ==> faulty
  {
    fails := *;
    fails := fails && faulty;
  }
}
