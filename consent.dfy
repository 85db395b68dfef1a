/**
 * The consent duration and the conversions from JavaScript millisecond
 * timestamps to the epoch seconds the tables store.
 */
module Consent {

  /** `consentDurationSeconds` (its defining file is not part of this model): 30 days. */
  const ConsentDurationSeconds: nat := 30 * 24 * 60 * 60

  /** `consentDurationMS`: the same duration in milliseconds. */
  const ConsentDurationMs: nat := 1000 * ConsentDurationSeconds

  /** `Math.round(ms / 1000)`; JavaScript rounds halves towards +infinity. */
  function RoundSeconds(ms: int): (s: int)
    ensures s * 1000 - 500 <= ms < s * 1000 + 500
  {
    (ms + 500) / 1000
  }

  /** `Math.floor(ms / 1000)`. */
  function FloorSeconds(ms: int): (s: int)
    ensures s * 1000 <= ms < s * 1000 + 1000
  {
    ms / 1000
  }

  lemma FloorSecondsMonotone(a: int, b: int)
    requires a <= b
    ensures FloorSeconds(a) <= FloorSeconds(b)
  {
  }
}
