/** How a queued send ends, told by the events of the run alone: which job counts as sent, failed or skipped, which of
    them may start, and who is refused. */
module QueueOutcomes {
  import opened QueueProtocol
  import opened Wrappers

  /** Everything a job's phase says about what happened to it. */
  predicate Told(s: State, events: seq<Event>, i: nat)
    requires i < |s.jobs|
  {
    var job := s.jobs[i];
    && (job.phase.Sent? <==> Finish(i, true) in events)
    && (job.phase == Failed(true) <==> Finish(i, false) in events)
    && (job.phase == Failed(false) ==>
          RowFails(i) in events || Proceed(i, true) in events || Proceed(i, false) in events)
    && (RowFails(i) in events ==> job.phase == Failed(false))
    && (job.phase.Skipped? ==> job.cancelled)
    && (job.cancelled ==> Cancel(i) in events && job.queued)
    && (Started(job.phase) ==> Proceed(i, true) in events)
    && (job.phase.Waiting? ==> Proceed(i, true) !in events && Proceed(i, false) !in events)
  }

  /** Nothing happens to a job before it is confirmed. */
  predicate Unborn(events: seq<Event>, i: nat) {
    && Finish(i, true) !in events && Finish(i, false) !in events && RowFails(i) !in events
    && Proceed(i, true) !in events && Proceed(i, false) !in events
  }

  ghost predicate AllTold(s: State, events: seq<Event>) {
    && (forall i :: 0 <= i < |s.jobs| ==> Told(s, events, i))
    && (forall i :: i >= |s.jobs| ==> Unborn(events, i))
  }

  /** The job that an event is about, if it is about one. */
  predicate About(e: Event, i: nat) {
    !e.Confirm? && e.id == i
  }

  lemma OtherStaysTold(s: State, events: seq<Event>, e: Event, i: nat)
    requires i < |s.jobs| && Told(s, events, i) && Enabled(s, e) && !About(e, i)
    ensures i < |Next(s, e).jobs| && Told(Next(s, e), events + [e], i)
  {
    var s' := Next(s, e);
    assert s'.jobs[i] == s.jobs[i];
    hide Next;
  }

  lemma SubjectIsTold(s: State, events: seq<Event>, e: Event, i: nat)
    requires i < |s.jobs| && Told(s, events, i) && Enabled(s, e) && About(e, i)
    ensures i < |Next(s, e).jobs| && Told(Next(s, e), events + [e], i)
  {
  }

  lemma StepKeepsTold(s: State, events: seq<Event>, e: Event)
    requires AllTold(s, events) && Enabled(s, e)
    ensures AllTold(Next(s, e), events + [e])
  {
    var s' := Next(s, e);
    assert |s.jobs| <= |s'.jobs| <= |s.jobs| + 1;
    forall i | 0 <= i < |s'.jobs| ensures Told(s', events + [e], i) {
      if i == |s.jobs| {
        assert Unborn(events, i);
        NewbornIsTold(s, events, e);
      } else if About(e, i) {
        SubjectIsTold(s, events, e, i);
      } else {
        OtherStaysTold(s, events, e, i);
      }
    }
    hide Told;
    forall i | i >= |s'.jobs| ensures Unborn(events + [e], i) {
      assert Unborn(events, i);
    }
  }

  lemma NewbornIsTold(s: State, events: seq<Event>, e: Event)
    requires Unborn(events, |s.jobs|) && Enabled(s, e) && |Next(s, e).jobs| == |s.jobs| + 1
    ensures Told(Next(s, e), events + [e], |s.jobs|)
  {
  }

  lemma {:induction false} EveryRunIsTold(events: seq<Event>)
    requires Run(Empty(), events).Some?
    ensures AllTold(Run(Empty(), events).value, events)
  {
    hide Next, Enabled, Told;
    if |events| > 0 {
      var before, e := events[..|events| - 1], events[|events| - 1];
      EveryRunIsTold(before);
      StepKeepsTold(Run(Empty(), before).value, before, e);
      assert events == before + [e];
    }
  }

  /** In every run a job counts as sent exactly when its send ended with a hash, and as failed exactly when it ended
      without; it is skipped only when it was cancelled, and it started only when it was let through. */
  lemma OutcomeIsWhatHappened(events: seq<Event>, i: nat)
    requires Run(Empty(), events).Some? && i < |Run(Empty(), events).value.jobs|
    ensures var job := Run(Empty(), events).value.jobs[i];
            && (job.phase.Sent? <==> Finish(i, true) in events)
            && (job.phase == Failed(true) <==> Finish(i, false) in events)
            && (job.phase.Skipped? ==> Cancel(i) in events)
            && (i in Run(Empty(), events).value.starts ==> Proceed(i, true) in events)
  {
    EveryRunIsTold(events);
    EveryRunKeepsInvariant(events);
    hide Run, Unsettled;
    var s := Run(Empty(), events).value;
    assert Told(s, events, i);
    StartsAreExact(s, i);
  }

  /** So a send that ended without a hash is the last of its busy period. */
  lemma NothingStartsBehindAHashlessEnd(events: seq<Event>, i: nat, j: nat)
    requires Run(Empty(), events).Some? && Finish(i, false) in events
    requires SamePeriod(Run(Empty(), events).value, i, j)
    ensures j !in Run(Empty(), events).value.starts
  {
    OutcomeIsWhatHappened(events, i);
    NothingStartsBehindAFailure(events, i, j);
  }

  lemma PredecessorTold(s: State, events: seq<Event>, i: nat)
    requires Invariant(s) && AllTold(s, events) && i < |s.jobs|
    ensures s.jobs[i].previous.Some? ==> i >= 1 && s.jobs[i].previous.value == i - 1
    ensures s.jobs[i].previous.Some? ==> (s.jobs[i - 1].phase.Sent? <==> Finish(i - 1, true) in events)
  {
    hide Unsettled;
    assert JobOk(s, i);
    if s.jobs[i].previous.Some? { assert Told(s, events, i - 1); }
  }

  /** The user cancelled job `i` in event `k`, while it stood in the queue and had not moved on. */
  predicate CancelledAt(events: seq<Event>, i: nat, k: nat) {
    && k < |events| && events[k] == Cancel(i)
    && var s := Run(Empty(), events[..k]);
       s.Some? && i < |s.value.jobs| && s.value.jobs[i].queued && s.value.jobs[i].phase.Waiting?
  }

  predicate IsCancelled(s: State, i: nat) {
    i < |s.jobs| && s.jobs[i].cancelled
  }

  lemma StepCancels(s: State, e: Event, i: nat)
    requires Enabled(s, e)
    ensures IsCancelled(Next(s, e), i)
            <==> IsCancelled(s, i) || (e == Cancel(i) && i < |s.jobs| && s.jobs[i].queued && s.jobs[i].phase.Waiting?)
  {
  }

  /** In every run a job counts as cancelled exactly when the user did that. */
  lemma {:induction false} CancelledExactlyWhen(events: seq<Event>, i: nat)
    requires Run(Empty(), events).Some?
    ensures IsCancelled(Run(Empty(), events).value, i) <==> exists k :: CancelledAt(events, i, k)
  {
    hide Next, Enabled, IsCancelled;
    if |events| == 0 {
      assert !IsCancelled(Empty(), i) by { NothingConfirmedYet(i); }
    } else {
      var n := |events| - 1;
      var before, s := events[..n], Run(Empty(), events[..n]).value;
      CancelledExactlyWhen(before, i);
      StepCancels(s, events[n], i);
      forall k | 0 <= k < n ensures CancelledAt(before, i, k) <==> CancelledAt(events, i, k) {
        assert before[..k] == events[..k];
      }
      if IsCancelled(Run(Empty(), events).value, i) && !IsCancelled(s, i) { assert CancelledAt(events, i, n); }
    }
  }

  lemma NothingConfirmedYet(i: nat)
    ensures !IsCancelled(Empty(), i)
  {
  }

  /** A waiting job whose turn has come starts exactly when the context still holds, it was not cancelled, and the job
      it waited for was sent or skipped; and it is skipped exactly when it was cancelled and that job was one of these.
   */
  lemma StartsExactlyWhen(events: seq<Event>, i: nat, contextOk: bool)
    requires Run(Empty(), events).Some? && Enabled(Run(Empty(), events).value, Proceed(i, contextOk))
    ensures var s := Run(Empty(), events).value;
            (i in Next(s, Proceed(i, contextOk)).starts
             <==> contextOk && !s.jobs[i].cancelled
                  && (s.jobs[i].previous.Some? ==>
                        i >= 1 && (Finish(i - 1, true) in events || s.jobs[i - 1].phase.Skipped?)))
    ensures var s := Run(Empty(), events).value;
            (Next(s, Proceed(i, contextOk)).jobs[i].phase.Skipped?
             <==> s.jobs[i].cancelled
                  && (s.jobs[i].previous.Some? ==>
                        i >= 1 && (Finish(i - 1, true) in events || s.jobs[i - 1].phase.Skipped?)))
  {
    EveryRunIsTold(events);
    EveryRunKeepsInvariant(events);
    var s := Run(Empty(), events).value;
    hide Run, Unsettled, Invariant, AllTold;
    PredecessorTold(s, events, i);
    WaitingHasNotStarted(s, i);
    hide Told, JobOk, Settle;
  }

  /** In particular the job behind a send that ended with a hash starts. */
  lemma NextStartsBehindAHash(events: seq<Event>, i: nat)
    requires Run(Empty(), events).Some? && Finish(i, true) in events
    requires var s := Run(Empty(), events).value;
             && SamePeriod(s, i, i + 1) && s.jobs[i + 1].phase.Waiting? && !s.jobs[i + 1].cancelled
    ensures var s := Run(Empty(), events).value;
            && Enabled(s, Proceed(i + 1, true))
            && i + 1 in Next(s, Proceed(i + 1, true)).starts && Next(s, Proceed(i + 1, true)).jobs[i + 1].phase.Running?
  {
    EveryRunIsTold(events);
    EveryRunKeepsInvariant(events);
    var s := Run(Empty(), events).value;
    hide Run, Unsettled, Invariant, AllTold, Enabled, Next;
    PredecessorTold(s, events, i + 1);
    assert s.jobs[i + 1].previous.Some?;
    FollowsSent(s, i + 1);
  }

  lemma FollowsSent(s: State, i: nat)
    requires 1 <= i < |s.jobs| && s.jobs[i].previous == Some(i - 1) && s.jobs[i - 1].phase.Sent?
    requires s.jobs[i].phase.Waiting? && !s.jobs[i].cancelled
    ensures Enabled(s, Proceed(i, true))
    ensures i in Next(s, Proceed(i, true)).starts && Next(s, Proceed(i, true)).jobs[i].phase.Running?
  {
  }

  /** A confirmation is refused exactly when the context is wrong, or something else is unresolved while no confirmed
      send is; otherwise it adds one waiting job, behind the last one if and only if some job is unsettled. */
  lemma ConfirmedExactlyWhen(events: seq<Event>, contextOk: bool, blocked: bool)
    requires Run(Empty(), events).Some?
    ensures var s := Run(Empty(), events).value;
            var s' := Next(s, Confirm(contextOk, blocked));
            var idle := forall i :: 0 <= i < |s.jobs| ==> Settled(s.jobs[i].phase);
            if contextOk && !(idle && blocked) then
              && |s'.jobs| == |s.jobs| + 1 && s'.jobs[..|s.jobs|] == s.jobs && s'.starts == s.starts
              && s'.jobs[|s.jobs|] == Job(if idle then None else Some(|s.jobs| - 1), !idle, false, Waiting)
            else s' == s
  {
    EveryRunKeepsInvariant(events);
    var s := Run(Empty(), events).value;
    CounterTells(s);
    hide Run, Unsettled, JobOk;
  }
}
