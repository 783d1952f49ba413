/** The retry schedule of both task queues, and the message a dead letter keeps. */
module Backoff {

  function Power2(n: nat): nat {
    if n == 0 then 1 else 2 * Power2(n - 1)
  }

  /** `retry_countdown`: seconds before attempt number `attempt`. */
  function RetryCountdown(attempt: nat): nat {
    Power2(attempt) * 10
  }

  /** The error column holds two thousand characters. */
  function Truncate(message: string): string {
    if |message| <= 2000 then message else message[..2000]
  }
}
