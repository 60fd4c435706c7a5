/** When a delivery that failed is tried again (src/platform/events/event-retries.ts). */
module EventRetries {
  import opened Wrappers

  /** Milliseconds since the epoch. */
  type Time = int

  const MINUTE: Time := 60_000

  /** Minutes to wait after each failed attempt. */
  const RETRY_DELAY_MINUTES: seq<nat> := [1, 5, 15, 60, 180, 360, 720]

  const MAX_DELIVERY_ATTEMPTS: nat := |RETRY_DELAY_MINUTES| + 1

  const DELIVERY_LEASE: Time := 5 * MINUTE

  const DELIVERY_BATCH_SIZE: nat := 100

  /** How long after attempt `attempts` the next one may be made; zero attempts wait as long as one. */
  function Delay(attempts: nat): (wait: Time)
    requires attempts < MAX_DELIVERY_ATTEMPTS
    ensures MINUTE <= wait <= 720 * MINUTE
  {
    RETRY_DELAY_MINUTES[(if attempts > 1 then attempts else 1) - 1] * MINUTE
  }

  function NextAttemptAt(attempts: nat, now: Time): (retryAt: Option<Time>)
    ensures retryAt.None? <==> attempts >= MAX_DELIVERY_ATTEMPTS
    ensures retryAt.Some? ==> now + MINUTE <= retryAt.value <= now + 720 * MINUTE
  {
    if attempts >= MAX_DELIVERY_ATTEMPTS then None else Some(now + Delay(attempts))
  }
}
