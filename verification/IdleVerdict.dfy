/** trackedConn.idleVerdict of go/engine.go, and the clock it is read against. */
module IdleVerdict {
  import opened Bytes

  const MS := 1_000_000               // nanoseconds in a millisecond
  const IDLE_MS := 300_000            // tcpIdleTimeout
  const ZOMBIE_MS := 120_000          // tcpZombieTimeout
  const IDLE_NS := 300_000_000_000
  const CHECK_STEP_NS := 30_000_000_000  // tcpIdleCheckStep

  /** time.Time.UnixMilli of a clock in nanoseconds. */
  function Millis(ns: int): int {
    ns / MS
  }

  datatype Verdict = Keep | Idle | Zombie

  function Judge(tx: int, rx: int, nowMs: int): Verdict {
    var idle := nowMs - Max(tx, rx);
    if idle >= IDLE_MS then Idle
    else if tx > rx && idle >= ZOMBIE_MS then Zombie
    else Keep
  }

  /** Exactly when a flow is condemned: both directions silent for 5 minutes, or for 2 with a request unanswered. */
  lemma CondemnedIff(tx: int, rx: int, nowMs: int)
    ensures Judge(tx, rx, nowMs) != Keep <==>
            (nowMs - tx >= 300_000 && nowMs - rx >= 300_000) ||
            (tx > rx && nowMs - tx >= 120_000 && nowMs - rx >= 120_000)
  {
  }

  /** A condemned flow is condemned all the more at a later time, or had the proxy's stamp been an earlier one. */
  lemma CondemnationLasts(tx: int, rx: int, now: int, earlier: int, later: int)
    requires Judge(tx, rx, now) != Keep && earlier <= rx && now <= later
    ensures Judge(tx, earlier, later) != Keep
  {
  }

  /** A kept flow was active less than 5 minutes ago on the nanosecond clock too. */
  lemma KeptMeansRecent(tx: int, rx: int, clock: int)
    requires Judge(tx, rx, Millis(clock)) == Keep
    ensures clock < Max(tx, rx) * MS + IDLE_NS
  {
  }
}
