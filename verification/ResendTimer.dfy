/** How far ahead the resend timer is set. */
module ResendTimer {
  import opened Shaping
  import opened Timeouts

  const RESEND_RETRY_MS := 10
  const MAX_U32 := 0xFFFF_FFFF

  /** The delay computed by Mainloop::_reschedule_resend from the earliest deadline, in ns. */
  function DelayMs(d: Deadline, now: int): nat
    requires d != Never
  {
    if d.Overdue? || d.time <= now then RESEND_RETRY_MS
    else
      var ms := (d.time - now + NSEC_PER_MSEC - 1) / NSEC_PER_MSEC;
      var atLeastOne := if ms < 1 then 1 else ms;
      if atLeastOne > MAX_U32 then MAX_U32 else atLeastOne
  }

  /**
   The timer is never set to the value that would disarm it. A deadline that has passed is looked at again in
   10 ms, and none is waited for longer than the 32-bit clamp.
   */
  lemma DelayArms(d: Deadline, now: int)
    requires d != Never
    ensures var spec := SpecOf(DelayMs(d, now));
            && IsArmed(spec) && 0 < Nanoseconds(spec) <= MAX_U32 * NSEC_PER_MSEC
            && (d.Overdue? || d.time <= now ==> Nanoseconds(spec) == 10 * NSEC_PER_MSEC)
  {
    SplitIsExact(DelayMs(d, now));
  }

  /** A future deadline is not missed early exactly if it is below the clamp, and then by under 1 ms. */
  lemma DelayMeetsDeadline(time: int, now: int)
    requires time > now
    ensures var wake := now + Nanoseconds(SpecOf(DelayMs(At(time), now)));
            && (wake >= time <==> time - now <= MAX_U32 * NSEC_PER_MSEC)
            && (time - now <= MAX_U32 * NSEC_PER_MSEC ==> wake < time + NSEC_PER_MSEC)
            && (time - now > MAX_U32 * NSEC_PER_MSEC ==> wake == now + MAX_U32 * NSEC_PER_MSEC)
  {
    SplitIsExact(DelayMs(At(time), now));
  }

  /**
   When a timer set at `now` for this deadline expires: in 10 ms if the deadline has come already; at the
   clamp if it comes after that; and otherwise when it has come, and by less than 1 ms.
   */
  lemma ExpiresWhenDue(d: Deadline, now: int)
    requires d != Never
    ensures var wake, clamp := now + Nanoseconds(SpecOf(DelayMs(d, now))), now + MAX_U32 * NSEC_PER_MSEC;
            && (HasCome(d, now) ==> wake == now + 10 * NSEC_PER_MSEC)
            && (!HasCome(d, now) && HasCome(d, clamp) ==> HasCome(d, wake) && !HasCome(d, wake - NSEC_PER_MSEC))
            && (!HasCome(d, clamp) ==> wake == clamp)
  {
    hide DelayMs, SpecOf, Nanoseconds;
    DelayArms(d, now);
    if !HasCome(d, now) {
      DelayMeetsDeadline(d.time, now);
    }
  }
}
