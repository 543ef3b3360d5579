/** The message types the broker sends. */
module Messages {
  import opened Unicode

  /** AUTH_PENDING */
  const AUTH_PENDING: Bytes := [65, 85, 84, 72, 95, 80, 69, 78, 68, 73, 78, 71]
  /** AUTH_IDLE */
  const AUTH_IDLE: Bytes := [65, 85, 84, 72, 95, 73, 68, 76, 69]
  /** AUTH_FAIL */
  const AUTH_FAIL: Bytes := [65, 85, 84, 72, 95, 70, 65, 73, 76]
  /** AUTH_FALLBACK */
  const AUTH_FALLBACK: Bytes := [65, 85, 84, 72, 95, 70, 65, 76, 76, 66, 65, 67, 75]
  /** AUTH_SUCCESS */
  const AUTH_SUCCESS: Bytes := [65, 85, 84, 72, 95, 83, 85, 67, 67, 69, 83, 83]
}
