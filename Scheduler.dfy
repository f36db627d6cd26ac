/** The scheduler whose dispatcher hands out at most one job per tick: it pops the highest-priority job
    and offers it to the workers in index order; the first worker whose channel has room takes it,
    otherwise the job goes back on the queue. Each goroutine step is one atomic method here. */
module Scheduler {
  import opened Jobs
  import opened PriorityQueue
  import opened Workers

  class Scheduler {
    const jobs: JobPriorityQueue
    var jobID: int
    const workers: seq<Worker>
    /** The workers' states, in slice order, kept in step with the worker objects. */
    ghost var views: seq<WorkerView>
    /** How many jobs workers have finished; bookkeeping for the conservation invariant. */
    ghost var completed: nat

    /** The object invariant: the queue is heap-ordered; the workers are distinct, `views` mirrors them,
        worker k has id k, and every channel is open and holds at most one job; the live jobs (queued,
        buffered in a channel or running) carry distinct ids already issued, and their number is the ids
        issued minus the jobs finished. */
    ghost predicate Valid()
      reads this, jobs, set w | w in workers
    {
      HeapOrdered(jobs.items) && Distinct(workers) &&
      |views| == |workers| && (forall k :: 0 <= k < |workers| ==> workers[k].View() == views[k]) &&
      PoolShaped(views) && ChannelsClosed(views, false) &&
      Accounted(Live(), jobID, completed)
    }

    /** Every job the scheduler is responsible for: queued, waiting in a channel, or running. */
    ghost function Live(): multiset<Job>
      reads this, jobs
    {
      multiset(jobs.items) + Held(views)
    }

    /** New: `numWorkers` idle workers with ids 0..numWorkers-1 in slice order, an empty queue and a zero
        counter. Starting the goroutines is not modelled. */
    constructor (numWorkers: nat)
      ensures Valid() && fresh(jobs)
      ensures jobs.items == [] && jobID == 0 && completed == 0
      ensures |workers| == numWorkers && forall k :: 0 <= k < numWorkers ==> fresh(workers[k])
      ensures views == seq(numWorkers, k => WorkerView(k, None, [], false))
    {
      var ws := NewWorkers(numWorkers);
      jobs := new JobPriorityQueue();
      jobID := 0;
      workers := ws;
      views := seq(numWorkers, k => WorkerView(k, None, [], false));
      completed := 0;
      new;
      HeldOfIdle(views);
    }

    /** Schedule: the counter goes up by exactly one, the job is stamped with the new value and exactly that
        job joins the queue; the workers are untouched. */
    method Schedule(job: Job) returns (stamped: Job)
      requires Valid()
      modifies this, jobs
      ensures Valid()
      ensures jobID == old(jobID) + 1 && stamped == job.(id := jobID)
      ensures stamped !in old(Live())
      ensures multiset(jobs.items) == multiset(old(jobs.items)) + multiset{stamped}
      ensures views == old(views) && completed == old(completed)
    {
      AdmitKeepsIdsUnique(Live(), jobID, job.(id := jobID + 1));
      jobID := jobID + 1;
      stamped := job.(id := jobID);
      jobs.HeapPush(stamped);
      assert Live() == old(Live()) + multiset{stamped};
    }

    /** tryDispatch: on an empty queue nothing changes. Otherwise the root job, whose priority is at least
        that of every job left, goes into the channel of the lowest-index worker whose channel has room,
        busy or not, and no other worker changes; when every channel is full the job is pushed back, so the
        queued multiset is unchanged. In every case the live jobs are conserved. */
    method TryDispatch() returns (event: Option<DispatchEvent>)
      requires Valid()
      modifies this, jobs, set w | w in workers
      ensures Valid() && jobID == old(jobID) && completed == old(completed)
      ensures old(jobs.items) == [] ==> event.None? && jobs.items == [] && views == old(views)
      ensures old(jobs.items) != [] && FirstOpenSlot(old(views)).None? ==>
        event.None? && multiset(jobs.items) == multiset(old(jobs.items)) && views == old(views)
      ensures old(jobs.items) != [] && FirstOpenSlot(old(views)).Some? ==>
        var w := FirstOpenSlot(old(views)).value;
        var job := old(jobs.items)[0];
        event == Some(DispatchEvent(job, w)) &&
        multiset(jobs.items) + multiset{job} == multiset(old(jobs.items)) &&
        (forall j :: j in jobs.items ==> j.priority <= job.priority) &&
        views == old(views)[w := old(views)[w].(chan := [Some(job)])]
      ensures Live() == old(Live())
    {
      if jobs.Len() == 0 {
        return None;
      }
      ghost var live0 := Live();
      assert Accounted(live0, jobID, completed);
      var job := jobs.HeapPop();
      ghost var views0 := views;
      var taken := Offer(job);
      if taken.Some? {
        event := Some(DispatchEvent(job, taken.value));
        HandOffHeld(views0, taken.value, job);
        ShapeUpdate(views0, taken.value, views0[taken.value].(chan := [Some(job)]), false);
        MoveKeepsUnion(multiset(old(jobs.items)), multiset(jobs.items), Held(views0), Held(views), job);
      } else {
        jobs.HeapPush(job);
        event := None;
      }
      assert Live() == live0;
    }

    /** The hand-off loop of tryDispatch: the job is offered to each worker in slice order without
        blocking, and the first whose channel has room takes it. The queue is not touched. */
    method Offer(job: Job) returns (taken: Option<nat>)
      requires |views| == |workers| && forall k :: 0 <= k < |workers| ==> workers[k].View() == views[k]
      requires Distinct(workers) && PoolShaped(views) && ChannelsClosed(views, false)
      modifies this, set w | w in workers
      ensures jobID == old(jobID) && completed == old(completed)
      ensures |views| == |workers| && forall k :: 0 <= k < |workers| ==> workers[k].View() == views[k]
      ensures taken == FirstOpenSlot(old(views))
      ensures taken.None? ==> views == old(views)
      ensures taken.Some? ==>
        taken.value < |views| && old(views)[taken.value].chan == [] &&
        views == old(views)[taken.value := old(views)[taken.value].(chan := [Some(job)])]
    {
      var i := 0;
      while i < |workers|
        invariant 0 <= i <= |workers| && views == old(views)
        invariant jobID == old(jobID) && completed == old(completed)
        invariant forall k :: 0 <= k < |workers| ==> workers[k].View() == views[k]
        invariant forall k :: 0 <= k < i ==> !HasRoom(views[k])
      {
        assert workers[i].View() == views[i];
        var sent := workers[i].TrySend(Some(job));
        if sent {
          FirstOpenSlotAt(views, i);
          views := views[i := views[i].(chan := [Some(job)])];
          forall k | 0 <= k < |workers| ensures workers[k].View() == views[k] {
          }
          return Some(workers[i].id);
        }
        i := i + 1;
      }
      return None;
    }

    /** GetStatus: one entry per worker, in slice order, with the worker's id, busy exactly when it has a
        current job, and that job. */
    method GetStatus() returns (statuses: seq<WorkerStatus>)
      requires Valid()
      ensures |statuses| == |views|
      ensures forall k :: 0 <= k < |statuses| ==>
        statuses[k].workerId == k &&
        (statuses[k].isBusy <==> views[k].current.Some?) &&
        statuses[k].currentJob == views[k].current
    {
      statuses := StatusOf(workers);
    }

    /** GetQueuedJobs: a fresh copy of the queue in its internal heap order, which puts a highest-priority
        job first but is otherwise not sorted (see HeapOrderIsNotSorted). */
    method GetQueuedJobs() returns (queued: seq<Job>)
      requires Valid()
      ensures queued == jobs.items
      ensures queued != [] ==> forall j :: j in queued ==> j.priority <= queued[0].priority
    {
      queued := CopyJobs(jobs.items);
      if queued != [] {
        RootIsMax(queued);
      }
    }

    /** A worker's run loop receiving from its channel while idle (see Worker.Receive): the pointer moves
        from the channel to `Current`, so the live jobs are unchanged. */
    method WorkerReceive(k: nat) returns (r: Receipt)
      requires Valid() && k < |workers| && workers[k].current.None?
      modifies this, workers[k]
      ensures Valid() && jobID == old(jobID) && completed == old(completed) && jobs.items == old(jobs.items)
      ensures old(views)[k].chan != [] ==>
        views == old(views)[k := old(views)[k].(current := old(views)[k].chan[0], chan := [])] &&
        r == if old(views)[k].chan[0].Some? then Started(old(views)[k].chan[0].value) else IgnoredNil
      ensures old(views)[k].chan == [] ==> views == old(views) && r == WouldBlock
      ensures Live() == old(Live())
    {
      assert workers[k].View() == views[k];
      r := workers[k].Receive();
      if old(views)[k].chan != [] {
        ReceiveHeld(views, k);
        ShapeUpdate(views, k, views[k].(current := views[k].chan[0], chan := []), false);
        views := views[k := views[k].(current := views[k].chan[0], chan := [])];
      }
    }

    /** A worker's job body returning (see Worker.Finish): the job leaves the live set and counts as completed. */
    method WorkerFinish(k: nat) returns (job: Job)
      requires Valid() && k < |workers| && workers[k].current.Some?
      modifies this, workers[k]
      ensures Valid() && jobID == old(jobID) && jobs.items == old(jobs.items)
      ensures job == old(views)[k].current.value
      ensures views == old(views)[k := old(views)[k].(current := None)]
      ensures Live() + multiset{job} == old(Live()) && completed == old(completed) + 1
    {
      assert workers[k].View() == views[k];
      job := workers[k].Finish();
      FinishHeld(views, k);
      ShapeUpdate(views, k, views[k].(current := None), false);
      views := views[k := views[k].(current := None)];
      completed := completed + 1;
      FinishKeepsAccounted(old(Live()), Live(), job, jobID, old(completed));
      forall i | 0 <= i < |workers| ensures workers[i].View() == views[i] {
      }
      assert HeapOrdered(jobs.items);
      assert Distinct(workers);
      assert PoolShaped(views);
      assert ChannelsClosed(views, false);
      assert Accounted(Live(), jobID, completed);
    }
  }
}
