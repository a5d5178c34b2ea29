/** When a remote session expires, and the reaper loop that waits for it. Instants are milliseconds. */
module SessionExpiry {
  const REMOTE_SESSION_IDLE_TIMEOUT: nat := 15 * 60 * 1000
  const REMOTE_SESSION_MAX_LEASE: nat := 8 * 60 * 60 * 1000

  /** `Instant::elapsed` and `saturating_sub` both stop at zero. */
  function SaturatingSub(a: nat, b: nat): nat
  {
    if a <= b then 0 else a - b
  }

  function ExpiryWait(openedAt: nat, lastActivity: nat, now: nat): nat
  {
    var lease := SaturatingSub(REMOTE_SESSION_MAX_LEASE, SaturatingSub(now, openedAt));
    var idle := SaturatingSub(REMOTE_SESSION_IDLE_TIMEOUT, SaturatingSub(now, lastActivity));
    if lease <= idle then lease else idle
  }

  predicate IsExpired(openedAt: nat, lastActivity: nat, now: nat)
  {
    || SaturatingSub(now, openedAt) >= REMOTE_SESSION_MAX_LEASE
    || SaturatingSub(now, lastActivity) >= REMOTE_SESSION_IDLE_TIMEOUT
  }

  /** At one instant the wait is zero exactly when the session is expired; waiting it out in silence expires it. */
  lemma WaitZeroMeansExpired(openedAt: nat, lastActivity: nat, now: nat)
    requires openedAt <= now && lastActivity <= now
    ensures ExpiryWait(openedAt, lastActivity, now) == 0 <==> IsExpired(openedAt, lastActivity, now)
    ensures IsExpired(openedAt, lastActivity, now + ExpiryWait(openedAt, lastActivity, now))
    ensures forall t: nat :: now <= t < now + ExpiryWait(openedAt, lastActivity, now)
              ==> !IsExpired(openedAt, lastActivity, t)
  {
  }

  // ----- the reaper loop

  /**
   What one turn of the loop observes: the entry and the clock in the first critical section, the
   outcome of the wait, and the entry and the clock in the second critical section.
   */
  datatype Turn = Turn(
    present: bool, checkedAt: nat, activity: nat,
    told: bool,
    stillPresent: bool, takenAt: nat, activityThen: nat)

  datatype Outcome = SessionGone | Told | Reaped(lastActivity: nat, at: nat)

  function Wait(openedAt: nat, turn: Turn): nat
  {
    ExpiryWait(openedAt, turn.activity, turn.checkedAt)
  }

  /** Clocks and activity only move forward within a turn. */
  predicate Ordered(openedAt: nat, turn: Turn)
  {
    && openedAt <= turn.activity <= turn.checkedAt <= turn.takenAt
    && turn.activity <= turn.activityThen <= turn.takenAt
  }

  /** The next turn starts after the sleep, or after the second critical section. */
  predicate Follows(openedAt: nat, turn: Turn, next: Turn)
  {
    if Wait(openedAt, turn) > 0
    then next.checkedAt >= turn.checkedAt + Wait(openedAt, turn) && next.activity >= turn.activity
    else next.checkedAt >= turn.takenAt && next.activity >= turn.activityThen
         && (!turn.stillPresent ==> !next.present)
  }

  /** Whatever other tasks do to the session, the turns look like this. */
  ghost predicate Observable(openedAt: nat, turns: nat -> Turn)
  {
    forall i: nat :: Ordered(openedAt, turns(i)) && Follows(openedAt, turns(i), turns(i + 1))
  }

  /** The turn gives the loop no reason to end. */
  predicate GoesOn(openedAt: nat, turn: Turn)
  {
    && turn.present
    && (if Wait(openedAt, turn) > 0 then !turn.told
        else !turn.stillPresent || !IsExpired(openedAt, turn.activityThen, turn.takenAt))
  }

  /** Twice the time left until the lease ends, plus one for a turn that found the session expired. */
  function TimeLeft(openedAt: nat, turn: Turn): int
  {
    2 * (openedAt + REMOTE_SESSION_MAX_LEASE - turn.checkedAt) + (if Wait(openedAt, turn) == 0 then 1 else 0)
  }

  /** A turn that neither ends nor finds the session expired twice brings the lease's end closer. */
  lemma TurnAdvances(openedAt: nat, turn: Turn, next: Turn)
    requires Ordered(openedAt, turn) && Ordered(openedAt, next) && Follows(openedAt, turn, next)
    requires Wait(openedAt, turn) == 0 ==> !IsExpired(openedAt, turn.activityThen, turn.takenAt)
    ensures TimeLeft(openedAt, next) < TimeLeft(openedAt, turn)
    ensures TimeLeft(openedAt, turn) > 0
  {
  }

  /**
   The loop ends whatever the activity, at the first turn that gives it a reason, and it takes the
   session out only if it is expired at that moment.
   */
  method ReapWhenIdle(openedAt: nat, turns: nat -> Turn) returns (outcome: Outcome, count: nat)
    requires Observable(openedAt, turns)
    ensures count <= 2 * REMOTE_SESSION_MAX_LEASE + 2
    ensures forall i: nat :: i < count ==> GoesOn(openedAt, turns(i))
    ensures outcome.SessionGone? ==> !turns(count).present
    ensures outcome.Told? ==> turns(count).present && turns(count).told && Wait(openedAt, turns(count)) > 0
    ensures outcome.Reaped? ==>
              && turns(count).present && turns(count).stillPresent && Wait(openedAt, turns(count)) == 0
              && outcome == Reaped(turns(count).activityThen, turns(count).takenAt)
              && IsExpired(openedAt, outcome.lastActivity, outcome.at)
  {
    count := 0;
    while true
      invariant turns(count).present ==> count == 0 || count <= TimeLeft(openedAt, turns(0))
      invariant forall i: nat :: i < count ==> GoesOn(openedAt, turns(i))
      invariant count <= 1 || count - 1 <= TimeLeft(openedAt, turns(0))
      invariant turns(count).present ==> TimeLeft(openedAt, turns(count)) + count <= TimeLeft(openedAt, turns(0))
      decreases turns(count).present, TimeLeft(openedAt, turns(count))
    {
      var turn := turns(count);
      if !turn.present {
        return SessionGone, count;
      }
      if ExpiryWait(openedAt, turn.activity, turn.checkedAt) > 0 {
        if turn.told {
          return Told, count;
        }
      } else if turn.stillPresent && IsExpired(openedAt, turn.activityThen, turn.takenAt) {
        return Reaped(turn.activityThen, turn.takenAt), count;
      }
      assert Follows(openedAt, turn, turns(count + 1));
      if turns(count + 1).present {
        TurnAdvances(openedAt, turn, turns(count + 1));
      }
      count := count + 1;
    }
  }
}
