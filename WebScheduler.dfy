/** The scheduler of the web package, whose dispatcher serves every free worker on each tick: it walks the
    workers in slice order and, for each one that is free while jobs are queued, pops the highest-priority
    job and offers it to that worker, pushing it back when the worker's channel is full. It has no locks;
    each method here is one atomic step. */
module WebScheduler {
  import opened Jobs
  import opened PriorityQueue
  import opened Workers

  function Min(a: nat, b: nat): nat
  {
    if a <= b then a else b
  }

  /** Jobs handed out later never have a higher priority than jobs handed out earlier. */
  ghost predicate NonIncreasing(events: seq<DispatchEvent>)
  {
    forall a, b :: 0 <= a < b < |events| ==> events[a].job.priority >= events[b].job.priority
  }

  /** Eligibility of a prefix of the pool grows one worker at a time. */
  lemma EligiblePrefixStep(vs: seq<WorkerView>, i: nat)
    requires i < |vs|
    ensures EligibleIndices(vs[..i + 1]) == EligibleIndices(vs[..i]) + if Eligible(vs[i]) then [i] else []
  {
    assert vs[..i + 1][..i] == vs[..i];
  }

  /** The state of a dispatch pass that has visited workers 0..i-1 of the pool `vs0`, starting from the
      queued jobs `q0`: the hand-offs went, in order, to the first eligible workers (free, with an empty
      channel), one each, and stopped early only because the queue ran dry; the queue lost exactly the
      handed-out jobs; each handed-out job was the highest-priority job left at the time; and the pool is
      `vs0` with those hand-offs applied. */
  ghost predicate Dispatched(vs0: seq<WorkerView>, q0: multiset<Job>, i: nat, events: seq<DispatchEvent>,
                             q: seq<Job>, vs: seq<WorkerView>)
    requires i <= |vs0|
  {
    var e := EligibleIndices(vs0[..i]);
    |events| <= |e| && (forall t :: 0 <= t < |events| ==> events[t].workerId == e[t]) &&
    (|events| < |e| ==> q == []) &&
    multiset(q) + EventJobs(events) == q0 &&
    NonIncreasing(events) &&
    (forall t, j :: 0 <= t < |events| && j in q ==> j.priority <= events[t].job.priority) &&
    vs == Delivered(vs0, events)
  }

  /** Workers not yet visited have not changed. */
  lemma DispatchedUntouched(vs0: seq<WorkerView>, q0: multiset<Job>, i: nat, events: seq<DispatchEvent>,
                            q: seq<Job>, vs: seq<WorkerView>)
    requires i <= |vs0| && Dispatched(vs0, q0, i, events, q, vs)
    ensures |vs| == |vs0| && forall k :: i <= k < |vs0| ==> vs[k] == vs0[k]
  {
    var e := EligibleIndices(vs0[..i]);
    assert forall t :: 0 <= t < |events| ==> e[t] in e;
    DeliveredAbove(vs0, events, i);
  }

  /** A visit that hands out nothing: the worker is not eligible or the queue is empty, and the queue keeps
      its jobs. */
  lemma DispatchedSkip(vs0: seq<WorkerView>, q0: multiset<Job>, i: nat, events: seq<DispatchEvent>,
                       q: seq<Job>, vs: seq<WorkerView>, q': seq<Job>)
    requires i < |vs0| && Dispatched(vs0, q0, i, events, q, vs)
    requires !Eligible(vs0[i]) || q == []
    requires multiset(q') == multiset(q)
    ensures Dispatched(vs0, q0, i + 1, events, q', vs)
  {
    EligiblePrefixStep(vs0, i);
    var e := EligibleIndices(vs0[..i]);
    var e' := EligibleIndices(vs0[..i + 1]);
    assert forall t :: 0 <= t < |events| ==> e'[t] == e[t];
    assert q == [] ==> q' == [] by {
      if q == [] {
        assert |multiset(q')| == 0;
      }
    }
    forall t, j | 0 <= t < |events| && j in q' ensures j.priority <= events[t].job.priority {
      assert j in multiset(q);
    }
  }

  /** A visit that hands the highest-priority queued job to an eligible worker. */
  lemma DispatchedHandOff(vs0: seq<WorkerView>, q0: multiset<Job>, i: nat, events: seq<DispatchEvent>,
                          q: seq<Job>, vs: seq<WorkerView>, q': seq<Job>, x: Job)
    requires i < |vs0| && Dispatched(vs0, q0, i, events, q, vs)
    requires Eligible(vs0[i]) && q != [] && x == q[0]
    requires multiset(q') + multiset{x} == multiset(q)
    requires forall j :: j in q' ==> j.priority <= x.priority
    ensures Dispatched(vs0, q0, i + 1, events + [DispatchEvent(x, i)], q', vs[i := vs[i].(chan := [Some(x)])])
  {
    EligiblePrefixStep(vs0, i);
    var ev := DispatchEvent(x, i);
    var events' := events + [ev];
    var e := EligibleIndices(vs0[..i]);
    var e' := EligibleIndices(vs0[..i + 1]);
    assert |events| == |e|;
    assert forall t :: 0 <= t < |events'| ==> events'[t].workerId == e'[t];
    SnocEvent(vs0, events, ev);
    assert multiset(q') + EventJobs(events') == q0 by {
      assert multiset(q') + EventJobs(events') == (multiset(q') + multiset{x}) + EventJobs(events);
    }
    HandOffOrder(events, q, q', x, i);
  }

  /** Appending one hand-off to a pass: its job joins the handed-out jobs and its recipient's channel
      buffers it. */
  lemma SnocEvent(vs0: seq<WorkerView>, events: seq<DispatchEvent>, ev: DispatchEvent)
    requires 0 <= ev.workerId < |vs0|
    ensures EventJobs(events + [ev]) == EventJobs(events) + multiset{ev.job}
    ensures var prev := Delivered(vs0, events);
      Delivered(vs0, events + [ev]) == prev[ev.workerId := prev[ev.workerId].(chan := [Some(ev.job)])]
  {
    assert (events + [ev])[..|events|] == events;
  }

  /** Handing out the highest-priority queued job keeps the hand-offs in non-increasing priority order,
      each at least as high as every job still queued. */
  lemma HandOffOrder(events: seq<DispatchEvent>, q: seq<Job>, q': seq<Job>, x: Job, w: int)
    requires q != [] && x == q[0]
    requires NonIncreasing(events)
    requires forall t, j :: 0 <= t < |events| && j in q ==> j.priority <= events[t].job.priority
    requires multiset(q') + multiset{x} == multiset(q)
    requires forall j :: j in q' ==> j.priority <= x.priority
    ensures NonIncreasing(events + [DispatchEvent(x, w)])
    ensures forall t, j :: 0 <= t < |events| + 1 && j in q' ==>
      j.priority <= (events + [DispatchEvent(x, w)])[t].job.priority
  {
    assert x in q;
    forall t, j | 0 <= t < |events| + 1 && j in q'
      ensures j.priority <= (events + [DispatchEvent(x, w)])[t].job.priority
    {
      assert j in multiset(q);
    }
  }

  /** The loop state of a dispatch pass: the pass state, the pool's shape, the heap order, and the jobs of
      the queue and the pool together, which stay `live0`. */
  ghost predicate PassState(vs0: seq<WorkerView>, q0: multiset<Job>, live0: multiset<Job>, i: nat,
                            events: seq<DispatchEvent>, q: seq<Job>, vs: seq<WorkerView>)
    requires i <= |vs0|
  {
    Dispatched(vs0, q0, i, events, q, vs) && PoolShaped(vs) && ChannelsClosed(vs, false) && HeapOrdered(q) &&
    multiset(q) + Held(vs) == live0
  }

  /** One visit of the dispatch loop, on values: whatever the visit did, the pass state advances to the next
      worker, the pool keeps its shape, and the queue and the pool together hold the same jobs. */
  lemma VisitStep(vs0: seq<WorkerView>, q0: multiset<Job>, live0: multiset<Job>, i: nat, events: seq<DispatchEvent>,
                  q: seq<Job>, vs: seq<WorkerView>, q': seq<Job>, vs': seq<WorkerView>, event: Option<DispatchEvent>)
    requires i < |vs0| && PassState(vs0, q0, live0, i, events, q, vs) && HeapOrdered(q')
    requires vs[i].current.Some? || q == [] ==> event.None? && q' == q && vs' == vs
    requires vs[i].current.None? && q != [] && !HasRoom(vs[i]) ==>
      event.None? && multiset(q') == multiset(q) && vs' == vs
    requires Eligible(vs[i]) && q != [] ==>
      event == Some(DispatchEvent(q[0], i)) && multiset(q') + multiset{q[0]} == multiset(q) &&
      (forall j :: j in q' ==> j.priority <= q[0].priority) && vs' == vs[i := vs[i].(chan := [Some(q[0])])]
    ensures event.Some? ==> PassState(vs0, q0, live0, i + 1, events + [event.value], q', vs')
    ensures event.None? ==> PassState(vs0, q0, live0, i + 1, events, q', vs')
  {
    DispatchedUntouched(vs0, q0, i, events, q, vs);
    if event.Some? {
      var x := q[0];
      DispatchedHandOff(vs0, q0, i, events, q, vs, q', x);
      HandOffHeld(vs, i, x);
      ShapeUpdate(vs, i, vs[i].(chan := [Some(x)]), false);
      MoveKeepsUnion(multiset(q), multiset(q'), Held(vs), Held(vs'), x);
    } else {
      DispatchedSkip(vs0, q0, i, events, q, vs, q');
    }
  }

  /** A pass over the whole pool: as many hand-offs as there are eligible workers or queued jobs, whichever
      is fewer, to the first eligible workers in slice order. */
  lemma PassComplete(vs0: seq<WorkerView>, q0: seq<Job>, events: seq<DispatchEvent>, q: seq<Job>,
                     vs: seq<WorkerView>)
    requires Dispatched(vs0, multiset(q0), |vs0|, events, q, vs)
    ensures |events| == Min(|EligibleIndices(vs0)|, |q0|)
    ensures forall t :: 0 <= t < |events| ==> events[t].workerId == EligibleIndices(vs0)[t]
    ensures vs == Delivered(vs0, events)
    ensures multiset(q) + EventJobs(events) == multiset(q0)
    ensures NonIncreasing(events)
    ensures forall t, j :: 0 <= t < |events| && j in q ==> j.priority <= events[t].job.priority
  {
    assert vs0[..|vs0|] == vs0;
    assert |multiset(q)| == |q| && |multiset(q0)| == |q0|;
  }

  /** The outcome of a whole pass as the scheduler promises it: each recipient was free with an empty
      channel, and after the pass its channel holds exactly the job it was given; every other worker is as
      it was. */
  lemma DispatchOutcome(vs0: seq<WorkerView>, events: seq<DispatchEvent>)
    requires |events| <= |EligibleIndices(vs0)|
    requires forall t :: 0 <= t < |events| ==> events[t].workerId == EligibleIndices(vs0)[t]
    ensures forall t :: 0 <= t < |events| ==>
      0 <= events[t].workerId < |vs0| && vs0[events[t].workerId].current.None? &&
      vs0[events[t].workerId].chan == [] &&
      Delivered(vs0, events)[events[t].workerId] == vs0[events[t].workerId].(chan := [Some(events[t].job)])
    ensures forall k :: 0 <= k < |vs0| && (forall t :: 0 <= t < |events| ==> events[t].workerId != k) ==>
      Delivered(vs0, events)[k] == vs0[k]
  {
    var e := EligibleIndices(vs0);
    assert forall t :: 0 <= t < |events| ==> e[t] in e;
    DeliveredAt(vs0, events);
  }

  /** One call never hands out more jobs than there are free workers, nor more than were queued. */
  lemma DispatchBound(vs: seq<WorkerView>, queued: nat)
    ensures Min(|EligibleIndices(vs)|, queued) <= CountFree(vs)
    ensures Min(|EligibleIndices(vs)|, queued) <= queued
  {
    EligibleAtMostFree(vs);
  }

  /** The two dispatch policies differ: the other scheduler parks a job in the channel of a busy worker
      whose channel is empty, while this one only serves free workers. */
  lemma PoliciesDiffer()
    ensures var running := Job(1, "a", 5, 1);
      var vs := [WorkerView(0, Some(running), [], false)];
      FirstOpenSlot(vs) == Some(0) && EligibleIndices(vs) == []
  {
    var vs := [WorkerView(0, Some(Job(1, "a", 5, 1)), [], false)];
    assert !Eligible(vs[0]);
    assert 0 !in EligibleIndices(vs);
  }

  /** Shutting down changes no job a worker holds. */
  lemma {:induction false} HeldIgnoresClosed(vs: seq<WorkerView>, vs': seq<WorkerView>)
    requires |vs'| == |vs| && forall k :: 0 <= k < |vs| ==> vs'[k] == vs[k].(closed := true)
    ensures Held(vs') == Held(vs)
  {
    if vs != [] {
      HeldIgnoresClosed(vs[1..], vs'[1..]);
    }
  }

  class Scheduler {
    const jobs: JobPriorityQueue
    var jobID: int
    const workers: seq<Worker>
    /** Whether Shutdown has closed the workers' channels. */
    var stopped: bool
    /** The workers' states, in slice order, kept in step with the worker objects. */
    ghost var views: seq<WorkerView>
    /** How many jobs workers have finished; bookkeeping for the conservation invariant. */
    ghost var completed: nat

    /** The object invariant: the queue is heap-ordered; the workers are distinct, `views` mirrors them,
        worker k has id k, every channel holds at most one job and is closed exactly after Shutdown; the
        live jobs carry distinct issued ids, and their number is the ids issued minus the jobs finished. */
    ghost predicate Valid()
      reads this, jobs, set w | w in workers
    {
      Shaped() && Accounted(Live(), jobID, completed)
    }

    /** The part of the invariant about the structures: heap order, the worker mirror and the pool's shape. */
    ghost predicate Shaped()
      reads this, jobs, set w | w in workers
    {
      HeapOrdered(jobs.items) && Distinct(workers) &&
      |views| == |workers| && (forall k :: 0 <= k < |workers| ==> workers[k].View() == views[k]) &&
      PoolShaped(views) && ChannelsClosed(views, stopped)
    }

    /** Every job the scheduler is responsible for: queued, waiting in a channel, or running. */
    ghost function Live(): multiset<Job>
      reads this, jobs
    {
      multiset(jobs.items) + Held(views)
    }

    /** New: `numWorkers` idle workers with ids 0..numWorkers-1 in slice order, an empty queue and a zero
        counter. Starting the goroutines is not modelled. */
    constructor (numWorkers: nat)
      ensures Valid() && !stopped && fresh(jobs)
      ensures jobs.items == [] && jobID == 0 && completed == 0
      ensures |workers| == numWorkers && forall k :: 0 <= k < numWorkers ==> fresh(workers[k])
      ensures views == seq(numWorkers, k => WorkerView(k, None, [], false))
    {
      var ws := NewWorkers(numWorkers);
      jobs := new JobPriorityQueue();
      jobID := 0;
      workers := ws;
      stopped := false;
      views := seq(numWorkers, k => WorkerView(k, None, [], false));
      completed := 0;
      new;
      HeldOfIdle(views);
      assert HeapOrdered(jobs.items) && PoolShaped(views) && ChannelsClosed(views, stopped);
      assert Shaped();
    }

    /** Schedule: the counter goes up by exactly one, the job is stamped with the new value and exactly that
        job joins the queue; the workers are untouched. */
    method Schedule(job: Job) returns (stamped: Job)
      requires Valid()
      modifies this, jobs
      ensures Valid() && stopped == old(stopped)
      ensures jobID == old(jobID) + 1 && stamped == job.(id := jobID)
      ensures stamped !in old(Live())
      ensures multiset(jobs.items) == multiset(old(jobs.items)) + multiset{stamped}
      ensures views == old(views) && completed == old(completed)
    {
      AdmitKeepsIdsUnique(Live(), jobID, job.(id := jobID + 1));
      jobID := jobID + 1;
      stamped := job.(id := jobID);
      jobs.HeapPush(stamped);
      assert Live() == old(Live()) + multiset{stamped};
    }

    /** tryDispatch: on an empty queue nothing changes. Otherwise the jobs handed out go, one each and in
        slice order, to the first eligible workers (free, with an empty channel), as many as there are
        eligible workers or queued jobs, whichever is fewer; each recipient's channel then holds its job and
        no other worker changes; the queue loses exactly those jobs; each is the highest-priority job left at
        its turn, so their priorities do not increase. The live jobs are conserved. Sending on a closed
        channel panics, so the scheduler must not have been shut down. */
    method TryDispatch() returns (events: seq<DispatchEvent>)
      requires Valid() && !stopped
      modifies this, jobs, set w | w in workers
      ensures Valid() && stopped == old(stopped) && jobID == old(jobID) && completed == old(completed)
      ensures old(jobs.items) == [] ==> events == [] && jobs.items == [] && views == old(views)
      ensures |events| == Min(|EligibleIndices(old(views))|, |old(jobs.items)|)
      ensures forall t :: 0 <= t < |events| ==> events[t].workerId == EligibleIndices(old(views))[t]
      ensures views == Delivered(old(views), events)
      ensures multiset(jobs.items) + EventJobs(events) == multiset(old(jobs.items))
      ensures NonIncreasing(events)
      ensures forall t, j :: 0 <= t < |events| && j in jobs.items ==> j.priority <= events[t].job.priority
      ensures Live() == old(Live())
    {
      if jobs.Len() == 0 {
        return [];
      }
      ghost var q0 := jobs.items;
      ghost var live0 := Live();
      assert Accounted(live0, jobID, completed);
      events := Pass();
      PassComplete(old(views), q0, events, jobs.items, views);
    }

    /** The loop of tryDispatch: every worker is visited once, in slice order. At the end the pass state
        covers the whole pool, the pool keeps its shape and the live jobs are conserved. */
    method Pass() returns (events: seq<DispatchEvent>)
      requires Shaped() && !stopped
      modifies this, jobs, set w | w in workers
      ensures Shaped() && stopped == old(stopped) && jobID == old(jobID) && completed == old(completed)
      ensures |old(views)| == |workers|
      ensures Dispatched(old(views), multiset(old(jobs.items)), |workers|, events, jobs.items, views)
      ensures Live() == old(Live())
    {
      ghost var live0 := Live();
      ghost var views0 := views;
      ghost var q0 := multiset(jobs.items);
      assert views0[..0] == [];
      events := [];
      var i := 0;
      while i < |workers|
        invariant 0 <= i <= |workers| && !stopped
        invariant jobID == old(jobID) && completed == old(completed)
        invariant |views| == |workers| && forall k :: 0 <= k < |workers| ==> workers[k].View() == views[k]
        invariant PassState(views0, q0, live0, i, events, jobs.items, views)
      {
        ghost var q := jobs.items;
        ghost var vs := views;
        var event := Visit(i);
        VisitStep(views0, q0, live0, i, events, q, vs, jobs.items, views, event);
        if event.Some? {
          events := events + [event.value];
        }
        i := i + 1;
      }
      assert Live() == live0;
    }

    /** The body of tryDispatch's loop for worker `i`: when the worker is free and jobs are queued, the
        highest-priority job is popped and offered to it without blocking; a full channel sends the job
        back onto the queue. Nothing else changes. */
    method Visit(i: nat) returns (event: Option<DispatchEvent>)
      requires i < |workers| && |views| == |workers|
      requires forall k :: 0 <= k < |workers| ==> workers[k].View() == views[k]
      requires Distinct(workers) && PoolShaped(views) && ChannelsClosed(views, false) && HeapOrdered(jobs.items)
      modifies this, jobs, workers[i]
      ensures jobID == old(jobID) && completed == old(completed) && stopped == old(stopped)
      ensures |views| == |workers| && forall k :: 0 <= k < |workers| ==> workers[k].View() == views[k]
      ensures HeapOrdered(jobs.items)
      ensures old(views)[i].current.Some? || old(jobs.items) == [] ==>
        event.None? && jobs.items == old(jobs.items) && views == old(views)
      ensures old(views)[i].current.None? && old(jobs.items) != [] && !HasRoom(old(views)[i]) ==>
        event.None? && multiset(jobs.items) == multiset(old(jobs.items)) && views == old(views)
      ensures Eligible(old(views)[i]) && old(jobs.items) != [] ==>
        var x := old(jobs.items)[0];
        event == Some(DispatchEvent(x, i)) &&
        multiset(jobs.items) + multiset{x} == multiset(old(jobs.items)) &&
        (forall j :: j in jobs.items ==> j.priority <= x.priority) &&
        views == old(views)[i := old(views)[i].(chan := [Some(x)])]
    {
      assert workers[i].View() == views[i];
      var free := workers[i].IsFree();
      if free && jobs.Len() > 0 {
        var job := jobs.HeapPop();
        var sent := workers[i].TrySend(Some(job));
        if sent {
          views := views[i := views[i].(chan := [Some(job)])];
          forall k | 0 <= k < |workers| ensures workers[k].View() == views[k] {
          }
          return Some(DispatchEvent(job, workers[i].id));
        } else {
          jobs.HeapPush(job);
        }
      }
      return None;
    }

    /** Shutdown: every worker's channel is closed, in slice order; nothing else changes. Closing a channel
        twice panics, so Shutdown runs at most once. */
    method Shutdown()
      requires Valid() && !stopped
      modifies this, set w | w in workers
      ensures Valid() && stopped
      ensures jobs.items == old(jobs.items) && jobID == old(jobID) && completed == old(completed)
      ensures |views| == |old(views)| && forall k :: 0 <= k < |views| ==> views[k] == old(views)[k].(closed := true)
      ensures Live() == old(Live())
    {
      ghost var live0 := Live();
      ghost var views0 := views;
      assert Accounted(live0, jobID, completed);
      CloseChannels();
      HeldIgnoresClosed(views0, views);
      assert Live() == live0;
    }

    /** The loop of Shutdown: `close(w.jobChan)` for every worker, in slice order. */
    method CloseChannels()
      requires Shaped() && !stopped
      modifies this, set w | w in workers
      ensures Shaped() && stopped
      ensures jobs.items == old(jobs.items) && jobID == old(jobID) && completed == old(completed)
      ensures |views| == |old(views)| && forall k :: 0 <= k < |views| ==> views[k] == old(views)[k].(closed := true)
    {
      ghost var views0 := views;
      for i := 0 to |workers|
        invariant jobID == old(jobID) && completed == old(completed) && !stopped
        invariant |views| == |workers| && forall k :: 0 <= k < |workers| ==> workers[k].View() == views[k]
        invariant forall k :: 0 <= k < i ==> views[k] == views0[k].(closed := true)
        invariant forall k :: i <= k < |workers| ==> views[k] == views0[k]
      {
        assert workers[i].View() == views[i];
        workers[i].Close();
        views := views[i := views[i].(closed := true)];
        forall k | 0 <= k < |workers| ensures workers[k].View() == views[k] {
        }
      }
      stopped := true;
    }

    /** GetStatus: one entry per worker, in slice order, with the worker's id, busy exactly when it has a
        current job, and that job. */
    method GetStatus() returns (statuses: seq<WorkerStatus>)
      requires Valid()
      ensures |statuses| == |views|
      ensures forall k :: 0 <= k < |statuses| ==>
        statuses[k].workerId == k &&
        (statuses[k].isBusy <==> views[k].current.Some?) &&
        statuses[k].currentJob == views[k].current
    {
      statuses := StatusOf(workers);
    }

    /** GetQueuedJobs: a fresh copy of the queue in its internal heap order, a highest-priority job first. */
    method GetQueuedJobs() returns (queued: seq<Job>)
      requires Valid()
      ensures queued == jobs.items
      ensures queued != [] ==> forall j :: j in queued ==> j.priority <= queued[0].priority
    {
      queued := CopyJobs(jobs.items);
      if queued != [] {
        RootIsMax(queued);
      }
    }

    /** A worker's run loop receiving from its channel while idle (see Worker.Receive): the pointer moves
        from the channel to `Current`; after Shutdown a drained channel ends the loop. */
    method WorkerReceive(k: nat) returns (r: Receipt)
      requires Valid() && k < |workers| && workers[k].current.None?
      modifies this, workers[k]
      ensures Valid() && stopped == old(stopped) && jobID == old(jobID) && completed == old(completed)
      ensures jobs.items == old(jobs.items)
      ensures old(views)[k].chan != [] ==>
        views == old(views)[k := old(views)[k].(current := old(views)[k].chan[0], chan := [])] &&
        r == if old(views)[k].chan[0].Some? then Started(old(views)[k].chan[0].value) else IgnoredNil
      ensures old(views)[k].chan == [] ==>
        views == old(views) && r == if stopped then ChannelClosed else WouldBlock
      ensures Live() == old(Live())
    {
      ghost var live0 := Live();
      ghost var views0 := views;
      assert Accounted(live0, jobID, completed);
      r := TakeFromChannel(k);
      if views0[k].chan != [] {
        ReceiveHeld(views0, k);
      }
      assert Live() == live0;
    }

    /** The receive of worker `k`'s run loop: a buffered pointer becomes the current job; nothing else
        changes. */
    method TakeFromChannel(k: nat) returns (r: Receipt)
      requires Shaped() && k < |workers| && workers[k].current.None?
      modifies this, workers[k]
      ensures Shaped() && stopped == old(stopped) && jobID == old(jobID) && completed == old(completed)
      ensures jobs.items == old(jobs.items)
      ensures old(views)[k].chan != [] ==>
        views == old(views)[k := old(views)[k].(current := old(views)[k].chan[0], chan := [])] &&
        r == if old(views)[k].chan[0].Some? then Started(old(views)[k].chan[0].value) else IgnoredNil
      ensures old(views)[k].chan == [] ==>
        views == old(views) && r == if stopped then ChannelClosed else WouldBlock
    {
      assert workers[k].View() == views[k];
      r := workers[k].Receive();
      if old(views)[k].chan != [] {
        var v := views[k].(current := views[k].chan[0], chan := []);
        ShapeUpdate(views, k, v, stopped);
        views := views[k := v];
        forall i | 0 <= i < |workers| ensures workers[i].View() == views[i] {
          if i != k {
            assert workers[i] != workers[k];
          }
        }
      }
    }

    /** A worker's job body returning (see Worker.Finish): the job leaves the live set and counts as completed. */
    method WorkerFinish(k: nat) returns (job: Job)
      requires Valid() && k < |workers| && workers[k].current.Some?
      modifies this, workers[k]
      ensures Valid() && stopped == old(stopped) && jobID == old(jobID) && jobs.items == old(jobs.items)
      ensures job == old(views)[k].current.value
      ensures views == old(views)[k := old(views)[k].(current := None)]
      ensures Live() + multiset{job} == old(Live()) && completed == old(completed) + 1
    {
      ghost var live0 := Live();
      ghost var views0 := views;
      assert Accounted(live0, jobID, completed);
      job := ClearCurrent(k);
      FinishHeld(views0, k);
      completed := completed + 1;
      FinishKeepsAccounted(live0, Live(), job, jobID, completed - 1);
    }

    /** The end of `process` for worker `k`: its current job is cleared and nothing else changes. */
    method ClearCurrent(k: nat) returns (job: Job)
      requires Shaped() && k < |workers| && workers[k].current.Some?
      modifies this, workers[k]
      ensures Shaped() && stopped == old(stopped) && jobID == old(jobID) && completed == old(completed)
      ensures jobs.items == old(jobs.items)
      ensures job == old(views)[k].current.value
      ensures views == old(views)[k := old(views)[k].(current := None)]
    {
      assert workers[k].View() == views[k];
      job := workers[k].Finish();
      var v := views[k].(current := None);
      ShapeUpdate(views, k, v, stopped);
      views := views[k := v];
      forall i | 0 <= i < |workers| ensures workers[i].View() == views[i] {
        if i != k {
          assert workers[i] != workers[k];
        }
      }
    }
  }
}
