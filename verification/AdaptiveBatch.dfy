/** The scheduler object: each method is the step of module BatchSchedule of the same name. */
module AdaptiveBatch {
  import Schedule = BatchSchedule
  import opened Wrappers

  class AdaptiveBatchPolicy {
    var secondsPerClaim: real
    var target: Option<real>
    var oldest: Option<real>
    var lastTarget: Option<real>

    function View(): Schedule.Policy
      reads this
    {
      Schedule.Policy(secondsPerClaim, target, oldest, lastTarget)
    }

    predicate Valid()
      reads this
    {
      Schedule.PolicyOk(View())
    }

    constructor ()
      ensures Valid() && View() == Schedule.Initial()
    {
      secondsPerClaim, target, oldest, lastTarget := 0.05, None, None, None;
    }

    function EstimatedSeconds(claims: int): real
      reads this
    {
      Schedule.EstimatedSeconds(View(), claims)
    }

    method ChooseTarget(now: real, claims: int, nextSlot: real) returns (t: real)
      ensures t == Schedule.ChooseTarget(View(), now, claims, nextSlot)
    {
      var earliest := now + EstimatedSeconds(claims) + Schedule.MARGIN;
      t := nextSlot;
      if t <= earliest {
        t := t + (((earliest - t) / Schedule.SLOT).Floor + 1) as real * Schedule.SLOT;
      }
      if lastTarget.Some? {
        t := Schedule.Max(t, lastTarget.value + Schedule.SLOT);
      }
    }

    /** `None` is the argument error, which changes nothing. */
    method Ready(now: Option<real>, claims: int, nextSlot: Option<real>) returns (ready: Option<bool>)
      requires Valid()
      modifies this`target, this`oldest
      ensures Valid()
      ensures var r := Schedule.Ready(old(View()), now, claims, nextSlot);
              if r.None? then ready.None? && View() == old(View()) else View() == r.value.0 && ready == Some(r.value.1)
      ensures ready == Some(true) ==> claims > 0 && target.Some? && oldest.Some?
      ensures ready == Some(true) && claims < Schedule.MAX_CLAIMS ==>
                && now.value >= oldest.value + 0.5
                && now.value + (0.10 + secondsPerClaim * claims as real) + 0.15 >= target.value
      ensures old(target).Some? && ready == Some(false) ==> claims == 0 || target == old(target)
    {
      if now.None? || nextSlot.None? || claims < 0 || claims > Schedule.MAX_CLAIMS {
        return None;
      }
      if claims == 0 {
        Reset();
        return Some(false);
      }
      Schedule.ObservationKeepsPolicy(View(), now, claims, nextSlot);
      hide Schedule.ChooseTarget, Schedule.PolicyOk, Schedule.EstimatedSeconds;
      ghost var before := View();
      if oldest.None? {
        oldest := now;
      }
      Schedule.ChoiceIgnoresBatch(before, View(), now.value, claims, nextSlot.value);
      var estimate := EstimatedSeconds(claims);
      if target.None? {
        var chosen := ChooseTarget(now.value, claims, nextSlot.value);
        target := Some(chosen);
      }
      ready := Some(claims == Schedule.MAX_CLAIMS
                    || now.value >= Schedule.Max(oldest.value + Schedule.FORMATION,
                        target.value - estimate - Schedule.MARGIN));
    }

    method Completed(now: Option<real>, claims: int, seconds: Option<real>) returns (ok: bool)
      requires Valid()
      modifies this
      ensures Valid()
      ensures var r := Schedule.Completed(old(View()), now, claims, seconds);
              if r.None? then !ok && View() == old(View()) else ok && View() == r.value
      ensures ok ==> target.None? && oldest.None? && lastTarget.Some?
      ensures ok && old(target).Some? && old(lastTarget).Some? ==>
          lastTarget.value >= old(lastTarget).value + Schedule.SLOT
    {
      if claims < 1 || claims > Schedule.MAX_CLAIMS || seconds.None? || seconds.value < 0.0 || now.None? {
        return false;
      }
      Schedule.CompletionKeepsPolicy(View(), now, claims, seconds);
      var observed := Schedule.Max(Schedule.FASTEST, (seconds.value - Schedule.OVERHEAD) / claims as real);
      secondsPerClaim := Schedule.Clamp(0.8 * secondsPerClaim + 0.2 * observed, Schedule.FASTEST, Schedule.SLOWEST);
      lastTarget := Some(if target.Some? then Schedule.Max(target.value, now.value) else now.value);
      Reset();
      ok := true;
    }

    method Reset()
      modifies this`target, this`oldest
      ensures View() == Schedule.Reset(old(View()))
    {
      target, oldest := None, None;
    }
  }
}
