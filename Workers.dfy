/** A worker: a fixed id, the job it is running (`Current`, nil when idle) and its one-slot hand-off
    channel; plus the pure view of a pool of workers that both scheduler variants reason about. */
module Workers {
  import opened Jobs

  /** The hand-off channel is made with a buffer of one job. */
  const ChanCapacity: nat := 1

  /** A snapshot of one worker: its id, its running job, the pointers buffered in its channel
      (a nil pointer is `None`) and whether the channel has been closed. */
  datatype WorkerView = WorkerView(id: int, current: Option<Job>, chan: seq<Option<Job>>, closed: bool)

  /** One entry of the status listing. */
  datatype WorkerStatus = WorkerStatus(workerId: int, isBusy: bool, currentJob: Option<Job>)

  /** The "job dispatched to worker" log line of a successful hand-off. */
  datatype DispatchEvent = DispatchEvent(job: Job, workerId: int)

  /** What one pass of the run loop's receive does. */
  datatype Receipt =
    | Started(job: Job)   // a job was received and is now running
    | IgnoredNil          // a nil pointer was received and skipped
    | ChannelClosed       // the channel is closed and drained: the run loop returns
    | WouldBlock          // nothing to receive yet: the run loop keeps waiting

  /** The jobs behind the non-nil pointers of a channel buffer. */
  function JobsIn(ptrs: seq<Option<Job>>): (m: multiset<Job>)
    ensures |m| <= |ptrs|
  {
    if ptrs == [] then multiset{}
    else (if ptrs[0].Some? then multiset{ptrs[0].value} else multiset{}) + JobsIn(ptrs[1..])
  }

  /** The jobs a worker holds: the one it runs and the one waiting in its channel. */
  function HeldBy(v: WorkerView): multiset<Job>
  {
    (if v.current.Some? then multiset{v.current.value} else multiset{}) + JobsIn(v.chan)
  }

  /** The jobs held by a whole pool. */
  function Held(vs: seq<WorkerView>): multiset<Job>
  {
    if vs == [] then multiset{} else HeldBy(vs[0]) + Held(vs[1..])
  }

  /** Adding the same jobs on both sides of an equation of multisets keeps it. */
  lemma Regroup(a: multiset<Job>, b: multiset<Job>, c: multiset<Job>, d: multiset<Job>, e: multiset<Job>)
    requires b + c == d + e
    ensures (a + b) + c == (a + d) + e
  {
    assert forall x :: ((a + b) + c)[x] == ((a + d) + e)[x] by {
      forall x ensures ((a + b) + c)[x] == ((a + d) + e)[x] {
        assert (b + c)[x] == (d + e)[x];
      }
    }
  }

  /** The pool holds what its first worker holds plus what the others hold. */
  lemma HeldSplit(vs: seq<WorkerView>)
    requires vs != []
    ensures Held(vs) == HeldBy(vs[0]) + Held(vs[1..])
  {
  }

  /** Replacing one worker's view changes what the pool holds by exactly what that worker holds. */
  lemma {:induction false} HeldUpdate(vs: seq<WorkerView>, w: nat, v: WorkerView)
    requires w < |vs|
    ensures Held(vs[w := v]) + HeldBy(vs[w]) == Held(vs) + HeldBy(v)
  {
    var after := vs[w := v];
    HeldSplit(vs);
    HeldSplit(after);
    if w == 0 {
      assert after[1..] == vs[1..];
      Regroup(multiset{}, HeldBy(v), Held(vs[1..]), Held(vs[1..]), HeldBy(v));
    } else {
      var rest := vs[1..];
      assert after[0] == vs[0] && after[1..] == rest[w - 1 := v] && rest[w - 1] == vs[w];
      HeldUpdate(rest, w - 1, v);
      Regroup(HeldBy(vs[0]), Held(rest[w - 1 := v]), HeldBy(vs[w]), Held(rest), HeldBy(v));
    }
  }

  /** A pool of idle workers with empty channels holds no job. */
  lemma {:induction false} HeldOfIdle(vs: seq<WorkerView>)
    requires forall k :: 0 <= k < |vs| ==> vs[k].current.None? && vs[k].chan == []
    ensures Held(vs) == multiset{}
  {
    if vs != [] {
      HeldOfIdle(vs[1..]);
    }
  }

  /** Handing a job to a worker with an empty channel adds exactly that job to what the pool holds. */
  lemma HandOffHeld(vs: seq<WorkerView>, w: nat, job: Job)
    requires w < |vs| && vs[w].chan == []
    ensures Held(vs[w := vs[w].(chan := [Some(job)])]) == Held(vs) + multiset{job}
  {
    var v := vs[w].(chan := [Some(job)]);
    assert JobsIn([Some(job)]) == multiset{job} by {
      assert [Some(job)][1..] == [];
    }
    HeldUpdate(vs, w, v);
    assert HeldBy(v) == HeldBy(vs[w]) + multiset{job};
    CancelCommon(Held(vs[w := v]), Held(vs), HeldBy(vs[w]), multiset{job});
  }

  /** Cancelling what both sides of an equation of multisets have in common. */
  lemma CancelCommon(a: multiset<Job>, b: multiset<Job>, c: multiset<Job>, d: multiset<Job>)
    requires a + c == b + (c + d)
    ensures a == b + d
  {
    forall e ensures a[e] == (b + d)[e] {
      assert (a + c)[e] == (b + (c + d))[e];
    }
  }

  /** An idle worker taking the buffered pointer as its current job holds the same jobs as before. */
  lemma ReceiveHeld(vs: seq<WorkerView>, w: nat)
    requires w < |vs| && vs[w].current.None? && |vs[w].chan| == 1
    ensures Held(vs[w := vs[w].(current := vs[w].chan[0], chan := [])]) == Held(vs)
  {
    var v := vs[w].(current := vs[w].chan[0], chan := []);
    assert JobsIn(vs[w].chan) == if vs[w].chan[0].Some? then multiset{vs[w].chan[0].value} else multiset{} by {
      assert vs[w].chan[1..] == [];
    }
    HeldUpdate(vs, w, v);
    assert HeldBy(v) == HeldBy(vs[w]);
    var after := Held(vs[w := v]);
    assert forall e :: after[e] == Held(vs)[e] by {
      forall e ensures after[e] == Held(vs)[e] {
        assert (after + HeldBy(vs[w]))[e] == (Held(vs) + HeldBy(v))[e];
      }
    }
  }

  /** A worker finishing its current job drops exactly that job from what the pool holds. */
  lemma FinishHeld(vs: seq<WorkerView>, w: nat)
    requires w < |vs| && vs[w].current.Some?
    ensures Held(vs[w := vs[w].(current := None)]) + multiset{vs[w].current.value} == Held(vs)
  {
    var v := vs[w].(current := None);
    HeldUpdate(vs, w, v);
    assert HeldBy(vs[w]) == HeldBy(v) + multiset{vs[w].current.value};
    var after := Held(vs[w := v]);
    assert forall e :: (after + multiset{vs[w].current.value})[e] == Held(vs)[e] by {
      forall e ensures (after + multiset{vs[w].current.value})[e] == Held(vs)[e] {
        assert (after + HeldBy(vs[w]))[e] == (Held(vs) + HeldBy(v))[e];
      }
    }
  }

  /** Worker k has id k, and no channel buffers more than its capacity. */
  ghost predicate PoolShaped(vs: seq<WorkerView>)
  {
    forall k :: 0 <= k < |vs| ==> vs[k].id == k && |vs[k].chan| <= ChanCapacity
  }

  /** Every worker's channel is closed exactly when `closed` holds: all open while the scheduler runs,
      all closed after Shutdown. */
  ghost predicate ChannelsClosed(vs: seq<WorkerView>, closed: bool)
  {
    forall k :: 0 <= k < |vs| ==> vs[k].closed == closed
  }

  /** Changing one worker's current job or channel, within capacity, keeps the pool's shape and the state
      of its channels. */
  lemma ShapeUpdate(vs: seq<WorkerView>, k: nat, v: WorkerView, closed: bool)
    requires PoolShaped(vs) && ChannelsClosed(vs, closed) && k < |vs|
    requires v.id == vs[k].id && |v.chan| <= ChanCapacity && v.closed == vs[k].closed
    ensures PoolShaped(vs[k := v]) && ChannelsClosed(vs[k := v], closed)
  {
  }

  /** A worker whose channel can take one more job without blocking. */
  predicate HasRoom(v: WorkerView)
  {
    |v.chan| < ChanCapacity
  }

  /** A worker that is free (no current job) and whose channel has room. */
  predicate Eligible(v: WorkerView)
  {
    v.current.None? && HasRoom(v)
  }

  /** The lowest-index worker whose channel has room, whether or not it is running a job. */
  function FirstOpenSlot(vs: seq<WorkerView>): (r: Option<nat>)
    ensures r.Some? ==> r.value < |vs| && HasRoom(vs[r.value])
    ensures r.Some? ==> forall k :: 0 <= k < r.value ==> !HasRoom(vs[k])
    ensures r.None? ==> forall k :: 0 <= k < |vs| ==> !HasRoom(vs[k])
  {
    if vs == [] then None
    else if HasRoom(vs[0]) then Some(0)
    else match FirstOpenSlot(vs[1..]) {
      case None => None
      case Some(k) => Some(k + 1)
    }
  }

  /** FirstOpenSlot names the worker a linear scan stops at: the first one with room. */
  lemma FirstOpenSlotAt(vs: seq<WorkerView>, i: nat)
    requires i < |vs| && HasRoom(vs[i]) && forall k :: 0 <= k < i ==> !HasRoom(vs[k])
    ensures FirstOpenSlot(vs) == Some(i)
  {
  }

  /** Strictly increasing indices. */
  predicate Increasing(s: seq<nat>)
  {
    forall a, b :: 0 <= a < b < |s| ==> s[a] < s[b]
  }

  /** The indices of the eligible workers, in pool order. */
  function EligibleIndices(vs: seq<WorkerView>): (r: seq<nat>)
    ensures Increasing(r)
    ensures forall k: nat :: k in r <==> k < |vs| && Eligible(vs[k])
  {
    if vs == [] then []
    else
      var front := vs[..|vs| - 1];
      assert forall k :: 0 <= k < |front| ==> front[k] == vs[k];
      var r := EligibleIndices(front);
      assert forall a :: 0 <= a < |r| ==> r[a] < |front| by {
        forall a | 0 <= a < |r| ensures r[a] < |front| {
          assert r[a] in r;
        }
      }
      r + if Eligible(vs[|vs| - 1]) then [|vs| - 1] else []
  }

  /** The number of free workers (no current job). */
  function CountFree(vs: seq<WorkerView>): nat
  {
    if vs == [] then 0 else CountFree(vs[..|vs| - 1]) + if vs[|vs| - 1].current.None? then 1 else 0
  }

  /** There are never more eligible workers than free ones. */
  lemma {:induction false} EligibleAtMostFree(vs: seq<WorkerView>)
    ensures |EligibleIndices(vs)| <= CountFree(vs)
  {
    if vs != [] {
      EligibleAtMostFree(vs[..|vs| - 1]);
    }
  }

  /** The pool after the hand-offs of `events`, in order: each recipient's channel buffers its job. */
  function Delivered(vs: seq<WorkerView>, events: seq<DispatchEvent>): (r: seq<WorkerView>)
    ensures |r| == |vs|
  {
    if events == [] then vs
    else
      var prev := Delivered(vs, events[..|events| - 1]);
      var e := events[|events| - 1];
      if 0 <= e.workerId < |prev| then prev[e.workerId := prev[e.workerId].(chan := [Some(e.job)])] else prev
  }

  /** The jobs handed out by `events`. */
  function EventJobs(events: seq<DispatchEvent>): (m: multiset<Job>)
    ensures |m| == |events|
  {
    if events == [] then multiset{} else EventJobs(events[..|events| - 1]) + multiset{events[|events| - 1].job}
  }

  /** Hand-offs to workers below `i` leave the workers from `i` on as they were. */
  lemma {:induction false} DeliveredAbove(vs: seq<WorkerView>, events: seq<DispatchEvent>, i: nat)
    requires forall t :: 0 <= t < |events| ==> events[t].workerId < i
    ensures forall k :: i <= k < |vs| ==> Delivered(vs, events)[k] == vs[k]
  {
    if events != [] {
      DeliveredAbove(vs, events[..|events| - 1], i);
    }
  }

  /** Hand-offs to distinct workers: each recipient's channel holds exactly its job, and a worker that
      received nothing is as it was. */
  lemma {:induction false} DeliveredAt(vs: seq<WorkerView>, events: seq<DispatchEvent>)
    requires forall t :: 0 <= t < |events| ==> 0 <= events[t].workerId < |vs|
    requires forall a, b :: 0 <= a < b < |events| ==> events[a].workerId != events[b].workerId
    ensures forall t :: 0 <= t < |events| ==>
      Delivered(vs, events)[events[t].workerId] == vs[events[t].workerId].(chan := [Some(events[t].job)])
    ensures forall k :: 0 <= k < |vs| && (forall t :: 0 <= t < |events| ==> events[t].workerId != k) ==>
      Delivered(vs, events)[k] == vs[k]
  {
    if events != [] {
      DeliveredAt(vs, events[..|events| - 1]);
    }
  }

  /** Worker: the goroutine's state. */
  class Worker {
    const id: int
    var current: Option<Job>
    var chan: seq<Option<Job>>
    var closed: bool

    /** The channel never buffers more than its capacity. */
    ghost predicate Valid()
      reads this
    {
      |chan| <= ChanCapacity
    }

    function View(): WorkerView
      reads this
    {
      WorkerView(id, current, chan, closed)
    }

    /** NewWorker: the given id, no current job, an empty open channel. */
    constructor (id: int)
      ensures Valid() && View() == WorkerView(id, None, [], false)
    {
      this.id := id;
      current := None;
      chan := [];
      closed := false;
    }

    /** IsFree: true exactly when no job is current. */
    method IsFree() returns (free: bool)
      ensures free <==> current.None?
    {
      free := current == None;
    }

    /** GetCurrent: the current job, nil when idle. */
    method GetCurrent() returns (job: Option<Job>)
      ensures job == current
    {
      job := current;
    }

    /** Asking both questions in a row: the worker is free exactly when it reports no current job. */
    method FreeAndCurrent() returns (free: bool, job: Option<Job>)
      ensures free <==> job.None?
      ensures job == current
    {
      free := IsFree();
      job := GetCurrent();
    }

    /** The non-blocking send `select { case w.jobChan <- job: ... default: }`: it succeeds exactly when the
        channel has room, whether or not the worker is running a job, and then buffers the job.
        Sending on a closed channel panics in Go, so the channel must be open. */
    method TrySend(job: Option<Job>) returns (sent: bool)
      requires Valid() && !closed
      modifies this
      ensures Valid()
      ensures sent <==> |old(chan)| < ChanCapacity
      ensures View() == if sent then old(View()).(chan := old(chan) + [job]) else old(View())
    {
      sent := |chan| < ChanCapacity;
      if sent {
        chan := chan + [job];
      }
    }

    /** One pass of the run loop while idle: receive from the channel and, for a non-nil job, start
        processing it, which makes it the current job. A nil job is skipped and the worker stays idle; a
        closed, drained channel ends the loop; an empty open channel leaves everything as it was. */
    method Receive() returns (r: Receipt)
      requires Valid() && current.None?
      modifies this
      ensures Valid()
      ensures old(chan) != [] ==>
        View() == old(View()).(current := old(chan)[0], chan := old(chan)[1..]) &&
        r == if old(chan)[0].Some? then Started(old(chan)[0].value) else IgnoredNil
      ensures old(chan) == [] ==>
        View() == old(View()) && r == if closed then ChannelClosed else WouldBlock
    {
      if chan != [] {
        var job := chan[0];
        chan := chan[1..];
        if job.Some? {
          current := job;
          r := Started(job.value);
        } else {
          r := IgnoredNil;
        }
      } else if closed {
        r := ChannelClosed;
      } else {
        r := WouldBlock;
      }
    }

    /** The end of `process`: the job's body has returned, so the current job is cleared. */
    method Finish() returns (job: Job)
      requires current.Some?
      modifies this
      ensures job == old(current).value
      ensures View() == old(View()).(current := None)
    {
      job := current.value;
      current := None;
    }

    /** close(w.jobChan): closing an already closed channel panics in Go. */
    method Close()
      requires !closed
      modifies this
      ensures View() == old(View()).(closed := true)
    {
      closed := true;
    }
  }

  /** Distinct worker objects. */
  ghost predicate Distinct(ws: seq<Worker>)
  {
    forall a, b :: 0 <= a < b < |ws| ==> ws[a] != ws[b]
  }

  /** The worker-creation loop shared by both schedulers' constructors: `n` new idle workers with open,
      empty channels, worker k having id k. */
  method NewWorkers(n: nat) returns (ws: seq<Worker>)
    ensures |ws| == n && Distinct(ws)
    ensures forall k :: 0 <= k < n ==> fresh(ws[k]) && ws[k].View() == WorkerView(k, None, [], false)
  {
    ws := [];
    var i := 0;
    while i < n
      invariant i <= n && |ws| == i && Distinct(ws)
      invariant forall k :: 0 <= k < i ==> fresh(ws[k]) && ws[k].View() == WorkerView(k, None, [], false)
    {
      var w := new Worker(i);
      ws := ws + [w];
      i := i + 1;
    }
  }

  /** The status listing shared by both schedulers: one entry per worker, in slice order, with the
      worker's id, busy exactly when it has a current job, and that job. */
  method StatusOf(ws: seq<Worker>) returns (statuses: seq<WorkerStatus>)
    ensures |statuses| == |ws|
    ensures forall k :: 0 <= k < |ws| ==>
      statuses[k] == WorkerStatus(ws[k].id, ws[k].current.Some?, ws[k].current)
  {
    var a := new WorkerStatus[|ws|];
    for i := 0 to |ws|
      invariant forall k :: 0 <= k < i ==> a[k] == WorkerStatus(ws[k].id, ws[k].current.Some?, ws[k].current)
    {
      var current := ws[i].GetCurrent();
      a[i] := WorkerStatus(ws[i].id, current != None, current);
    }
    statuses := a[..];
  }
}
