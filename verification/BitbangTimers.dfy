/** Why a restarted timer of the link simply advances by its period. */
module BitbangTimers {
  import opened BitbangDevice
  import opened BitbangLink

  /** The expiry n periods on. */
  function Grid(expiry: real, period: real, n: nat): real {
    if n == 0 then expiry else Grid(expiry, period, n - 1) + period
  }

  /** What hrtimer_forward yields: the first time on the timer's grid behind now. */
  ghost predicate IsForwarded(expiry: real, now: real, period: real, e: real) {
    if now < expiry then e == expiry
    else e - period <= now < e && exists n: nat :: e == Grid(expiry, period, n)
  }

  lemma {:induction false} GridOfWhole(expiry: int, period: int, n: nat)
    ensures Grid(expiry as real, period as real, n) == (expiry + n * period) as real
  {
    if n > 0 {
      GridOfWhole(expiry, period, n - 1);
      assert expiry + n * period == expiry + (n - 1) * period + period;
    }
  }

  lemma {:induction false} GridGrows(expiry: real, period: real, n: nat)
    requires period > 0.0 && n >= 2
    ensures Grid(expiry, period, n) >= expiry + period + period
  {
    assert Grid(expiry, period, 1) == expiry + period;
    if n > 2 {
      GridGrows(expiry, period, n - 1);
    }
  }

  /** The device's function meets that description. */
  lemma ForwardIsHrtimer(expiry: int, now: int, period: int)
    requires period > 0
    ensures IsForwarded(expiry as real, now as real, period as real, HrtimerForward(expiry, now, period) as real)
  {
    if now >= expiry {
      var q := (now - expiry) / period;
      assert HrtimerForward(expiry, now, period) == expiry + (q + 1) * period == expiry + q * period + period;
      GridOfWhole(expiry, period, q + 1);
    }
  }

  /** A callback that is late by less than a period keeps the timer on its grid: the only
      possible result is one period on. */
  lemma ForwardWithinPeriod(expiry: real, now: real, period: real, e: real)
    requires period > 0.0 && expiry <= now < expiry + period
    ensures IsForwarded(expiry, now, period, e) <==> e == expiry + period
  {
    assert Grid(expiry, period, 0) == expiry;
    assert Grid(expiry, period, 1) == expiry + period;
    if n: nat :| e == Grid(expiry, period, n) {
      if n >= 2 {
        GridGrows(expiry, period, n);
      }
    }
  }

  /** So the timers of a legal link are restarted where hrtimer_forward puts them. */
  lemma TimersAreForwarded(p: Params, l: Link, e: Event)
    requires Legal(p) && Enabled(p, l, e)
    ensures e.act.TxFire? && TxCallback(l.tx).restart ==>
              var next := Apply(p, l, e).txTimer;
              next.Some? && IsForwarded(l.txTimer.value, e.at, p.pt, next.value)
    ensures e.act.RxFire? && RxCallback(l.rx, l.line).restart ==>
              var next := Apply(p, l, e).rxTimer;
              next.Some? && IsForwarded(l.rxTimer.value, e.at, p.pr, next.value)
  {
    hide TxCallback, RxCallback, IsForwarded;
    if e.act.TxFire? {
      ForwardWithinPeriod(l.txTimer.value, e.at, p.pt, l.txTimer.value + p.pt);
    } else if e.act.RxFire? {
      ForwardWithinPeriod(l.rxTimer.value, e.at, p.pr, l.rxTimer.value + p.pr);
    }
  }
}
