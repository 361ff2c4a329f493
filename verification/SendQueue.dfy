/** The manual send queue as the wallet keeps it: each method is the event of module QueueProtocol of the same
    name, and the entry guard and the cancel button say what they did. */
module SendQueue {
  import Protocol = QueueProtocol
  import opened Wrappers

  datatype Entry = Refused | Accepted(id: nat, queued: bool)

  class ManualSendQueue {
    var jobs: seq<Protocol.Job>
    var tail: Option<nat>
    var manualSendCount: int
    ghost var starts: seq<nat>

    ghost function View(): Protocol.State
      reads this
    {
      Protocol.State(jobs, tail, manualSendCount, starts)
    }

    ghost predicate Valid()
      reads this
    {
      Protocol.Invariant(View())
    }

    constructor ()
      ensures Valid() && View() == Protocol.Empty()
    {
      jobs, tail, manualSendCount, starts := [], None, 0, [];
      new;
      Protocol.EmptyIsOk();
    }

    method Confirm(contextOk: bool, blocked: bool) returns (entry: Entry)
      requires Valid()
      modifies this
      ensures Valid() && View() == Protocol.Next(old(View()), Protocol.Confirm(contextOk, blocked))
      ensures entry == if Protocol.Refused(old(View()), contextOk, blocked) then Refused
                       else Accepted(|old(jobs)|, old(manualSendCount) > 0)
      ensures entry.Accepted? && !entry.queued ==> forall i :: 0 <= i < |old(jobs)| ==> Protocol.Settled(jobs[i].phase)
    {
      Protocol.StepKeepsInvariant(View(), Protocol.Confirm(contextOk, blocked));
      Protocol.CounterTells(View());
      hide Protocol.Invariant;
      if !contextOk {
        return Refused;
      }
      var queued := manualSendCount > 0;
      if !queued && blocked {
        return Refused;
      }
      var previous := tail;
      manualSendCount := manualSendCount + 1;
      jobs := jobs + [Protocol.Job(previous, queued, false, Protocol.Waiting)];
      tail := Some(|jobs| - 1);
      entry := Accepted(|jobs| - 1, queued);
    }

    /** Only a queued job that has not started can be cancelled. */
    method Cancel(id: nat) returns (done: bool)
      requires Valid()
      modifies this`jobs
      ensures Valid() && View() == Protocol.Next(old(View()), Protocol.Cancel(id))
      ensures done <==> id < |jobs| && jobs[id].queued && jobs[id].phase.Waiting? && !old(jobs)[id].cancelled
      ensures done ==> jobs[id].cancelled && id !in starts
    {
      Protocol.StepKeepsInvariant(View(), Protocol.Cancel(id));
      Protocol.WaitingHasNotStarted(View(), id);
      hide Protocol.Invariant;
      if id >= |jobs| || !jobs[id].queued || !jobs[id].phase.Waiting? || jobs[id].cancelled {
        assert id < |jobs| && jobs[id].cancelled ==> jobs == jobs[id := jobs[id].(cancelled := true)];
        return false;
      }
      jobs := jobs[id := jobs[id].(cancelled := true)];
      done := true;
    }

    /** The `finally` part of a job. */
    method Settle(id: nat, phase: Protocol.Phase)
      requires id < |jobs|
      modifies this`jobs, this`manualSendCount, this`tail
      ensures View() == Protocol.Settle(old(View()), id, phase)
    {
      jobs := jobs[id := jobs[id].(phase := phase)];
      manualSendCount := manualSendCount - 1;
      if manualSendCount == 0 {
        tail := None;
      }
    }

    method RowFails(id: nat)
      requires Valid() && Protocol.Enabled(View(), Protocol.RowFails(id))
      modifies this
      ensures Valid() && View() == Protocol.Next(old(View()), Protocol.RowFails(id))
    {
      Protocol.StepKeepsInvariant(View(), Protocol.RowFails(id));
      hide Protocol.Invariant;
      Settle(id, Protocol.Failed(false));
    }

    method Proceed(id: nat, contextOk: bool)
      requires Valid() && Protocol.Enabled(View(), Protocol.Proceed(id, contextOk))
      modifies this
      ensures Valid() && View() == Protocol.Next(old(View()), Protocol.Proceed(id, contextOk))
      ensures jobs[id].phase.Running? ==> contextOk && !jobs[id].cancelled
      ensures jobs[id].phase.Running? ==> forall i :: 0 <= i < |jobs| && i != id ==> !jobs[i].phase.Running?
    {
      Protocol.StepKeepsInvariant(View(), Protocol.Proceed(id, contextOk));
      Protocol.RunnerIsAlone(Protocol.Next(View(), Protocol.Proceed(id, contextOk)), id);
      hide Protocol.Invariant;
      var previous := jobs[id].previous;
      if previous.Some? && jobs[previous.value].phase.Failed? {
        Settle(id, Protocol.Failed(false));
      } else if jobs[id].cancelled {
        Settle(id, Protocol.Skipped);
      } else if !contextOk {
        Settle(id, Protocol.Failed(false));
      } else {
        jobs := jobs[id := jobs[id].(phase := Protocol.Running)];
        starts := starts + [id];
      }
    }

    method Finish(id: nat, hash: bool)
      requires Valid() && Protocol.Enabled(View(), Protocol.Finish(id, hash))
      modifies this
      ensures Valid() && View() == Protocol.Next(old(View()), Protocol.Finish(id, hash))
      ensures (jobs[id].phase.Sent? <==> hash) && (jobs[id].phase == Protocol.Failed(true) <==> !hash)
    {
      Protocol.StepKeepsInvariant(View(), Protocol.Finish(id, hash));
      hide Protocol.Invariant;
      Settle(id, if hash then Protocol.Sent else Protocol.Failed(true));
    }
  }
}
