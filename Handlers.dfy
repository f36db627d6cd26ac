/** The job-creation endpoint: the checks on a decoded request and the job it builds and schedules. */
module Handlers {
  import opened Jobs
  import Scheduler

  /** Go's `int` on the 64-bit platforms the server is built for. */
  newtype Int64 = x: int | -0x8000_0000_0000_0000 <= x < 0x8000_0000_0000_0000

  const MinInt64: int := -0x8000_0000_0000_0000
  const MaxInt64: int := 0x7fff_ffff_ffff_ffff

  /** time.Second, in nanoseconds. */
  const NanosPerSecond: int := 1_000_000_000

  /** The longest duration, in seconds, whose nanosecond count fits a time.Duration: MaxInt64 / time.Second. */
  const MaxDurationSeconds: int := 9_223_372_036

  /** The decoded body of a create request; the duration is in seconds. */
  datatype CreateJobRequest = CreateJobRequest(name: string, priority: Int64, duration: Int64)

  /** What the endpoint answers: 201 with the new id, or 400 with the first failing check's message. */
  datatype Reply =
    | Created(id: int, message: string)
    | BadRequest(error: string)

  /** Go's signed 64-bit arithmetic: the result wraps around modulo 2^64. */
  function Wrap64(x: int): (r: int)
    ensures MinInt64 <= r <= MaxInt64
    ensures MinInt64 <= x <= MaxInt64 ==> r == x
    ensures (x - r) % 0x1_0000_0000_0000_0000 == 0
  {
    (x - MinInt64) % 0x1_0000_0000_0000_0000 + MinInt64
  }

  /** The checks of CreateJob as written: name, then priority, then duration, the first failure deciding the
      message; an accepted request yields an unstamped job whose duration is `duration * time.Second`,
      computed in 64-bit arithmetic. */
  function ValidateAsWritten(req: CreateJobRequest): (r: Result<Job>)
    ensures r.Ok? <==> req.name != [] && 1 <= req.priority <= 100 && req.duration > 0
    ensures req.name == [] ==> r == Err("Name is required")
    ensures req.name != [] && (req.priority < 1 || req.priority > 100) ==>
      r == Err("Priority must be between 1 and 100")
    ensures req.name != [] && 1 <= req.priority <= 100 && req.duration <= 0 ==>
      r == Err("Duration must be positive")
    ensures r.Ok? ==>
      r.value == Job(0, req.name, req.priority as int, Wrap64(req.duration as int * NanosPerSecond))
  {
    if req.name == [] then Err("Name is required")
    else if req.priority < 1 || req.priority > 100 then Err("Priority must be between 1 and 100")
    else if req.duration <= 0 then Err("Duration must be positive")
    else Ok(Job(0, req.name, req.priority as int, Wrap64(req.duration as int * NanosPerSecond)))
  }

  /** The request that shows the overflow: a positive duration of 9223372037 seconds passes every check,
      and the job built from it has a negative duration, so it is accepted yet runs no time at all. */
  lemma DurationOverflows()
    ensures var r := ValidateAsWritten(CreateJobRequest("backup", 50, 9_223_372_037));
      r.Ok? && r.value.duration == -9_223_372_036_709_551_616 && r.value.duration < 0
  {
  }

  /** The checks as evidently intended: the same checks in the same order, and a duration too long to be
      counted in nanoseconds is rejected as well, so every accepted job runs for exactly the requested
      number of seconds, a positive time.Duration. */
  function Validate(req: CreateJobRequest): (r: Result<Job>)
    ensures r.Ok? <==>
      req.name != [] && 1 <= req.priority <= 100 && 0 < req.duration as int <= MaxDurationSeconds
    ensures req.name == [] ==> r == Err("Name is required")
    ensures req.name != [] && (req.priority < 1 || req.priority > 100) ==>
      r == Err("Priority must be between 1 and 100")
    ensures req.name != [] && 1 <= req.priority <= 100 && req.duration <= 0 ==>
      r == Err("Duration must be positive")
    ensures req.name != [] && 1 <= req.priority <= 100 && req.duration as int > MaxDurationSeconds ==>
      r == Err("Duration is too large")
    ensures r.Ok? ==>
      r.value.id == 0 && r.value.name == req.name && r.value.priority == req.priority as int &&
      r.value.duration == req.duration as int * NanosPerSecond && 0 < r.value.duration <= MaxInt64
  {
    if req.name == [] then Err("Name is required")
    else if req.priority < 1 || req.priority > 100 then Err("Priority must be between 1 and 100")
    else if req.duration <= 0 then Err("Duration must be positive")
    else if req.duration as int > MaxDurationSeconds then Err("Duration is too large")
    else Ok(Job(0, req.name, req.priority as int, req.duration as int * NanosPerSecond))
  }

  /** The bound is the largest that does not overflow: one second more leaves the 64-bit range. */
  lemma MaxDurationIsTight()
    ensures MaxDurationSeconds * NanosPerSecond <= MaxInt64
    ensures (MaxDurationSeconds + 1) * NanosPerSecond > MaxInt64
  {
  }

  /** Below the overflow bound the two validators agree, on rejections and on the job built. */
  lemma ValidatorsAgree(req: CreateJobRequest)
    requires req.duration as int <= MaxDurationSeconds
    ensures Validate(req) == ValidateAsWritten(req)
  {
    if req.name != [] && 1 <= req.priority <= 100 && req.duration > 0 {
      assert req.duration as int * NanosPerSecond <= MaxInt64;
    }
  }

  /** CreateJob after decoding, as written: a request failing a check is answered with that check's
      message and reaches no scheduler state; an accepted one, including one whose duration overflows,
      is scheduled, and the reply carries the id the scheduler stamped on it. */
  method CreateJob(s: Scheduler.Scheduler, req: CreateJobRequest) returns (reply: Reply)
    requires s.Valid()
    modifies s, s.jobs
    ensures s.Valid() && s.views == old(s.views)
    ensures ValidateAsWritten(req).Err? ==>
      reply == BadRequest(ValidateAsWritten(req).message) &&
      s.jobID == old(s.jobID) && s.jobs.items == old(s.jobs.items)
    ensures ValidateAsWritten(req).Ok? ==>
      reply == Created(s.jobID, "Job scheduled successfully") && s.jobID == old(s.jobID) + 1 &&
      multiset(s.jobs.items) == multiset(old(s.jobs.items)) + multiset{ValidateAsWritten(req).value.(id := s.jobID)}
  {
    var checked := ValidateAsWritten(req);
    if checked.Err? {
      return BadRequest(checked.message);
    }
    var job := s.Schedule(checked.value);
    reply := Created(job.id, "Job scheduled successfully");
  }

  /** CreateJob with the corrected checks: the same endpoint, but a duration too long to be counted in
      nanoseconds is rejected before any scheduler state changes, so every scheduled job runs for exactly
      the requested, positive number of seconds. */
  method CreateJobChecked(s: Scheduler.Scheduler, req: CreateJobRequest) returns (reply: Reply)
    requires s.Valid()
    modifies s, s.jobs
    ensures s.Valid() && s.views == old(s.views)
    ensures Validate(req).Err? ==>
      reply == BadRequest(Validate(req).message) && s.jobID == old(s.jobID) && s.jobs.items == old(s.jobs.items)
    ensures Validate(req).Ok? ==>
      reply == Created(s.jobID, "Job scheduled successfully") && s.jobID == old(s.jobID) + 1 &&
      multiset(s.jobs.items) == multiset(old(s.jobs.items)) + multiset{Validate(req).value.(id := s.jobID)}
  {
    var checked := Validate(req);
    if checked.Err? {
      return BadRequest(checked.message);
    }
    var job := s.Schedule(checked.value);
    reply := Created(job.id, "Job scheduled successfully");
  }
}
