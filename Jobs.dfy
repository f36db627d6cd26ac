/** The job record shared by the queue, the workers and both scheduler variants. */
module Jobs {

  /** A Go pointer that may be nil: `None` is nil. */
  datatype Option<+T> = None | Some(value: T)

  /** The outcome of a check that either yields a value or an error message. */
  datatype Result<+T> = Ok(value: T) | Err(message: string)

  /** A unit of work: its sequence id (0 until the scheduler stamps it), its label, its priority
      (a higher value is served first) and how long its body runs, in nanoseconds.
      The opaque `Execute` callback is not part of the model. */
  datatype Job = Job(id: int, name: string, priority: int, duration: int)

  /** Every live job occurs once, carries an id the counter has already issued (1..counter),
      and no two live jobs share an id. */
  ghost predicate IdsUnique(live: multiset<Job>, counter: int)
  {
    (forall j :: j in live ==> 1 <= j.id <= counter && live[j] == 1) &&
    (forall a, b :: a in live && b in live && a.id == b.id ==> a == b)
  }

  /** The bookkeeping of a scheduler: the live jobs carry distinct issued ids, and their number is the
      ids issued so far minus the jobs finished. */
  ghost predicate Accounted(live: multiset<Job>, counter: int, completed: nat)
  {
    0 <= counter && IdsUnique(live, counter) && |live| + completed == counter
  }

  /** Admitting a job stamped with the next id keeps the live ids unique. */
  lemma AdmitKeepsIdsUnique(live: multiset<Job>, counter: int, job: Job)
    requires IdsUnique(live, counter) && counter >= 0
    requires job.id == counter + 1
    ensures job !in live
    ensures IdsUnique(live + multiset{job}, counter + 1)
  {
    var after := live + multiset{job};
    forall j | j in after ensures 1 <= j.id <= counter + 1 && after[j] == 1 {
      if j == job {
        assert live[j] == 0;
      } else {
        assert j in live;
      }
    }
  }

  /** A job finishing keeps the bookkeeping: one live job fewer, one completed job more. */
  lemma FinishKeepsAccounted(live: multiset<Job>, after: multiset<Job>, job: Job, counter: int, completed: nat)
    requires Accounted(live, counter, completed) && after + multiset{job} == live
    ensures Accounted(after, counter, completed + 1)
  {
    assert after == live - multiset{job};
    RemoveKeepsIdsUnique(live, multiset{job}, counter);
  }

  /** Moving one job from one collection to another keeps their union. */
  lemma MoveKeepsUnion(from: multiset<Job>, from': multiset<Job>, to: multiset<Job>, to': multiset<Job>, job: Job)
    requires from' + multiset{job} == from && to' == to + multiset{job}
    ensures from' + to' == from + to
  {
  }

  /** Removing jobs from the live multiset keeps the live ids unique. */
  lemma RemoveKeepsIdsUnique(live: multiset<Job>, gone: multiset<Job>, counter: int)
    requires IdsUnique(live, counter) && gone <= live
    ensures IdsUnique(live - gone, counter)
  {
  }
}
