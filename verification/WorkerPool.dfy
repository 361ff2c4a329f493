/** The worker pool as an object: its methods are the steps of module PoolProtocol, and running a list of
    tasks to the end returns their results in order, however the workers are scheduled. */
module WorkerPool {
  import opened PoolProtocol
  import opened Wrappers
  import Steps = PoolProtocol

  /** What `runAll` hands back: all results in task order, or a rejection. */
  datatype Batch<R> = Results(values: seq<R>) | BatchRejected

  /** The promises of one batch: those numbered from `first + 1` to `last`. */
  datatype Span = Span(first: nat, last: nat)

  class SphincsPool<T(!new), R> {
    const size: nat
    /** What a worker computes for a task. */
    const run: T -> R
    var idle: seq<nat>
    var queue: seq<Job<T>>
    var pending: map<nat, Option<nat>>
    var seqNo: nat
    /** The message each worker was posted and has not answered. */
    var inbox: map<nat, Job<T>>
    /** The promises settled so far. */
    var settled: map<nat, Outcome<R>>
    /** What other callers of the pool are going to ask for, at moments of their choosing. */
    var others: seq<T>
    ghost var started: seq<nat>
    ghost var history: seq<T>
    /** How many tasks have failed: error replies and worker crashes. */
    ghost var failures: nat
    /** The batches run to the end so far. */
    ghost var batches: seq<Span>

    ghost function View(): State<T, R>
      reads this
    {
      State(size, idle, queue, pending, seqNo, inbox, settled, started)
    }

    ghost predicate Valid()
      reads this
    {
      size >= 1 && Invariant(View()) && Drained(View()) && Faithful(View(), history, run)
    }

    /** A pool of the requested size, or of one worker less than the machine's threads, clamped to [1, 8]. */
    constructor (requested: nat, threads: nat, run: T -> R, others: seq<T>)
      ensures Valid() && View() == Initial(size) && history == [] && this.run == run
      ensures 1 <= size <= 8
    {
      var wanted := if requested != 0 then requested as int else threads - 1;
      var count := if wanted < 1 then 1 else if wanted > 8 then 8 else wanted;
      size := count;
      this.run := run;
      this.others := others;
      idle := seq(count, i requires 0 <= i => i);
      queue, pending, seqNo, inbox, settled := [], map[], 0, map[], map[];
      started, history, failures, batches := [], [], 0, [];
      new;
      InitialInvariant<T, R>(size);
      assert View() == Initial(size);
    }

    method Drain()
      modifies this`idle, this`queue, this`pending, this`inbox, this`started
      ensures View() == Steps.Drain(old(View()))
    {
      while |idle| > 0 && |queue| > 0
        invariant Steps.Drain(View()) == Steps.Drain(old(View()))
        invariant unchanged(this`seqNo) && unchanged(this`settled)
        decreases |queue|
      {
        ghost var before := View();
        var w := idle[|idle| - 1];
        idle := idle[..|idle| - 1];
        var job := queue[0];
        queue := queue[1..];
        if job.id in pending {
          pending := pending[job.id := Some(w)];
        }
        inbox := inbox[w := job];
        started := started + [job.id];
        assert View() == Dispatch(before);
      }
    }

    method Submit(task: T) returns (id: nat)
      requires Valid()
      modifies this
      ensures Valid() && View() == Steps.Submit(old(View()), task)
      ensures id == seqNo == old(seqNo) + 1 && history == old(history) + [task] && others == old(others)
      ensures settled == old(settled) && failures == old(failures) && batches == old(batches)
    {
      ghost var before := View();
      SubmitKeepsInvariant(before, task);
      StepKeepsFaithful(before, Submitted(task), history, run);
      hide Invariant, Steps.Drain;
      seqNo := seqNo + 1;
      id := seqNo;
      pending := pending[id := None];
      queue := queue + [Job(id, task)];
      history := history + [task];
      assert View() == Enqueue(before, task);
      Drain();
    }

    method OnMessage(w: nat, id: nat, outcome: Outcome<R>)
      modifies this`idle, this`queue, this`pending, this`inbox, this`settled, this`started
      ensures View() == Steps.OnMessage(old(View()), w, id, outcome)
    {
      hide Steps.Drain;
      if id in pending {
        pending := pending - {id};
        settled := settled[id := outcome];
      }
      idle := idle + [w];
      inbox := inbox - {w};
      Drain();
    }

    method OnError(w: nat)
      modifies this`idle, this`queue, this`pending, this`inbox, this`settled, this`started
      ensures View() == Steps.OnError(old(View()), w)
    {
      hide Steps.Drain;
      var lost := set id | id in pending && pending[id] == Some(w);
      pending := pending - lost;
      settled := settled + (map id | id in lost :: Rejected);
      if w !in idle {
        idle := idle + [w];
      }
      inbox := inbox - {w};
      Drain();
    }

    /** Promises are only ever rejected because a task failed. */
    ghost predicate NewFailures(before: map<nat, Outcome<R>>, failuresBefore: nat)
      reads this
    {
      && failuresBefore <= failures
      && (failuresBefore == failures ==> forall id :: id in settled && id !in before ==> settled[id].Resolved?)
    }

    /** One thing that a busy worker may do, chosen arbitrarily. */
    method SomeWorkerFinishes(w: nat)
      requires Valid() && w in inbox
      modifies this`idle, this`queue, this`pending, this`inbox, this`settled, this`started, this`failures
      ensures Valid() && settled.Keys == old(settled.Keys) + {old(inbox[w].id)}
      ensures pending.Keys < old(pending.Keys)
      ensures forall id :: id in old(settled) ==> settled[id] == old(settled)[id]
      ensures NewFailures(old(settled), old(failures))
    {
      hide Invariant, Drained, Faithful, Steps.OnMessage, Steps.OnError;
      ghost var before := View();
      var id, answer := inbox[w].id, Resolved(run(inbox[w].task));
      ghost var outcome := Rejected;
      CrashSettlesOnce(before, w);
      if {
        case true =>
          OnMessage(w, id, answer);
          outcome := answer;
        case true =>
          OnMessage(w, id, Rejected);
          failures := failures + 1;
        case true =>
          OnError(w);
          failures := failures + 1;
      }
      assert View() == Steps.OnMessage(before, w, id, outcome);
      FinishKeepsAll(before, w, outcome, history, run);
      assert settled == before.settled[id := outcome] && pending.Keys == before.pending.Keys - {id};
    }

    /** One of the promises of the span was rejected. */
    ghost predicate Failed(span: Span)
      reads this
    {
      exists id :: span.first < id <= span.last && id in settled && settled[id].Rejected?
    }

    /** Submit every task, then wait for their promises, while workers finish in any order and other callers
        submit what they like. */
    method RunAll(tasks: seq<T>) returns (r: Batch<R>)
      requires Valid()
      modifies this
      ensures Valid()
      ensures r.Results? ==> |r.values| == |tasks| && forall i :: 0 <= i < |tasks| ==> r.values[i] == run(tasks[i])
      ensures batches == old(batches) + [Span(old(seqNo), old(seqNo) + |tasks|)]
      ensures r.BatchRejected? <==> Failed(batches[|batches| - 1])
      ensures old(failures) <= failures && (r.BatchRejected? ==> old(failures) < failures)
    {
      hide Invariant, Drained;
      ghost var base, before := history, settled;
      var first := seqNo + 1;
      SubmitAll(tasks);
      SettleAll(first, |tasks|);
      assert forall id :: id in before ==> id < first;
      r := Collect(first, tasks, base);
      batches := batches + [Span(first - 1, first - 1 + |tasks|)];
    }

    method SubmitAll(tasks: seq<T>)
      requires Valid()
      modifies this
      ensures Valid() && history == old(history) + tasks && seqNo == old(seqNo) + |tasks|
      ensures settled == old(settled) && failures == old(failures) && batches == old(batches)
    {
      hide Invariant, Drained;
      for i := 0 to |tasks|
        invariant Valid() && seqNo == old(seqNo) + i && history == old(history) + tasks[..i]
        invariant settled == old(settled) && failures == old(failures) && batches == old(batches)
      {
        var _ := Submit(tasks[i]);
        assert tasks[..i + 1] == tasks[..i] + [tasks[i]];
      }
      assert tasks[..|tasks|] == tasks;
    }

    method SettleAll(first: nat, n: nat)
      requires Valid() && 1 <= first && first + n == seqNo + 1
      modifies this
      ensures Valid() && NewFailures(old(settled), old(failures)) && old(history) <= history && batches == old(batches)
      ensures forall id :: first <= id < first + n ==> id in settled
    {
      hide Invariant, Drained;
      for i := 0 to n
        invariant Valid() && NewFailures(old(settled), old(failures)) && old(history) <= history && seqNo >= old(seqNo)
        invariant batches == old(batches)
        invariant forall id :: id in old(settled) ==> id in settled && settled[id] == old(settled)[id]
        invariant forall id :: first <= id < first + i ==> id in settled
      {
        Settle(first + i);
      }
    }

    /** Wait for one promise, during which another caller may submit at any time. */
    method Settle(id: nat)
      requires Valid() && 1 <= id <= seqNo
      modifies this
      ensures Valid() && id in settled && old(history) <= history && seqNo >= old(seqNo) && batches == old(batches)
      ensures NewFailures(old(settled), old(failures))
      ensures forall k :: k in old(settled) ==> k in settled && settled[k] == old(settled)[k]
    {
      hide Invariant, Drained, Faithful;
      while id !in settled
        invariant Valid() && NewFailures(old(settled), old(failures)) && old(history) <= history && seqNo >= old(seqNo)
        invariant batches == old(batches)
        invariant forall k :: k in old(settled) ==> k in settled && settled[k] == old(settled)[k]
        decreases |others|, pending.Keys
      {
        SomeoneIsBusy(View(), id);
        if {
          case true =>
            var w :| w in inbox;
            SomeWorkerFinishes(w);
          case |others| > 0 =>
            var _ := Submit(others[0]);
            others := others[1..];
        }
      }
    }

    /** The results of the promises `first`, `first + 1`, ..., unless one of them was rejected. */
    method Collect(first: nat, tasks: seq<T>, ghost base: seq<T>) returns (r: Batch<R>)
      requires Valid() && base + tasks <= history && first == |base| + 1
      requires forall id :: first <= id < first + |tasks| ==> id in settled
      ensures r.Results? ==> |r.values| == |tasks| && forall i :: 0 <= i < |tasks| ==> r.values[i] == run(tasks[i])
      ensures r.BatchRejected? <==> exists id :: first <= id < first + |tasks| && id in settled && settled[id].Rejected?
    {
      hide Invariant, Drained;
      var values: seq<R> := [];
      for i := 0 to |tasks|
        invariant |values| == i && forall k :: 0 <= k < i ==> values[k] == run(tasks[k])
        invariant forall id :: first <= id < first + i ==> !settled[id].Rejected?
      {
        var outcome := settled[first + i];
        if outcome.Rejected? {
          return BatchRejected;
        }
        assert history[first + i - 1] == (base + tasks)[|base| + i] == tasks[i];
        values := values + [outcome.value];
      }
      r := Results(values);
    }
  }
}
