/** The values every part of the mail path passes around. */
module Types {
  // A queue id is a random token; drawing and parsing one is not modelled.
  datatype QueueId = QueueId(text: string)

  // An instant or a duration, in nanoseconds.
  type Time = int

  // File contents and header text are sequences of octets.
  type Octets = string

  const SECOND: Time := 1_000_000_000
  const MINUTE: Time := 60 * SECOND
  const HOUR: Time := 60 * MINUTE

  datatype Option<+T> = None | Some(value: T)

  datatype Result<+T, +E> = Ok(value: T) | Err(error: E)

  /** Who composed a message. */
  datatype Kind = FromClient | Notification | Canary

  datatype Envelope = Envelope(
    from: string,
    to: seq<string>,
    origin: string,
    route: string,
    size: int,
    received: Time,
    originalFrom: string,
    kind: Kind)

  /** What is written next to a body. */
  datatype Meta = Meta(
    id: QueueId,
    envelope: Envelope,
    attempts: int,
    lastError: string,
    nextAttempt: Time,
    expires: Time)

  function Min(a: int, b: int): int {
    if a <= b then a else b
  }

  function Max(a: int, b: int): int {
    if a <= b then b else a
  }
}
