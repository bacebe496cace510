/**
 * Objects the poller watches, and the watchdog the periodic sweep uses to
 * reclaim them.
 */
module Pollable {

  /** Default watchdog, in seconds: a pollable is reclaimed after 300 s. */
  const WATCHDOG: int := 300

  /**
   * `handle_periodic`'s verdict for an object created (or last given a
   * timeout) at `created`: the watchdog is enabled (not negative) and
   * strictly more than `watchdog` seconds have passed.
   */
  predicate Expired(created: int, watchdog: int, now: int)
  {
    watchdog >= 0 && now - created > watchdog
  }

  class Pollable {
    var created: int
    var watchdog: int

    /** `now` is the tick count the clock gives at creation. */
    constructor (now: int)
      ensures created == now && watchdog == WATCHDOG
    {
      created := now;
      watchdog := WATCHDOG;
    }

    function HandlePeriodic(now: int): (expired: bool)
      reads this
      ensures expired <==> Expired(created, watchdog, now)
    {
      watchdog >= 0 && now - created > watchdog
    }

    /** Restarts the watchdog at `now` with the given timeout. */
    method SetTimeout(now: int, timeo: int)
      modifies this
      ensures created == now && watchdog == timeo
    {
      created := now;
      watchdog := timeo;
    }
  }

  /** A negative timeout disables the watchdog. */
  lemma DisabledNeverExpires(created: int, watchdog: int, now: int)
    requires watchdog < 0
    ensures !Expired(created, watchdog, now)
  {
  }

  /** Once expired, an object stays expired as time goes on. */
  lemma ExpiryIsPermanent(created: int, watchdog: int, now: int, later: int)
    requires Expired(created, watchdog, now) && now <= later
    ensures Expired(created, watchdog, later)
  {
  }

  /** Right after `set_timeout`, exactly `watchdog` more seconds are still allowed. */
  lemma FreshTimeoutGrace(now: int, watchdog: int, later: int)
    requires watchdog >= 0
    ensures Expired(now, watchdog, later) <==> later > now + watchdog
  {
  }
}
