// How often a remote location is asked, and how long the waits between are. Times are in milliseconds.
module Retry {
  const FETCH_ATTEMPTS := 3
  const MAX_RETRY_DELAY := 10_000

  // retryable: throttling and server-side failure.
  predicate Retryable(code: int) {
    code == 429 || code >= 500
  }

  function Shift(base: int, attempt: nat): int {
    if attempt == 0 then base else 2 * Shift(base, attempt - 1)
  }

  // retryDelay: what the endpoint asked for, or an exponential backoff, and never more than the cap.
  function RetryDelay(attempt: nat, base: int, asked: int): (delay: int)
    ensures delay <= MAX_RETRY_DELAY
    ensures asked > 0 ==> delay <= asked && (delay == asked || delay == MAX_RETRY_DELAY)
    ensures base > 0 ==> delay > 0
  {
    ShiftGrows(base, attempt);
    var wanted := if asked <= 0 then Shift(base, attempt) else asked;
    if wanted < MAX_RETRY_DELAY then wanted else MAX_RETRY_DELAY
  }

  lemma {:induction false} ShiftGrows(base: int, attempt: nat)
    ensures base > 0 ==> Shift(base, attempt) >= base
  {
    if attempt > 0 {
      ShiftGrows(base, attempt - 1);
    }
  }
}
