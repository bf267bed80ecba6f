/** The callback endpoints of `client_api/api_views.py` through which a
    pool reports the scheduler queue ids of its jobs. The request body is
    taken already decoded: its `pool_id`, `secret_key` and `condor_jobs`
    values are parameters. */
module ApiViews {
  import opened Text

  /** A job record. Only `queueId` is written by the callback; the other
      columns stand for every other column of the record. */
  datatype CondorJob = CondorJob(subtaskId: int, processId: int, queueId: Option<int>, status: string, runTime: int)

  datatype Response = Response(status: int, contentType: string, body: string)

  const JsonType := "application/json"

  /** The answer to an accepted callback: status 201 Created, a JSON content
      type, and the body `{"status": "created"}`. */
  const CreatedResponse := Response(201, JsonType, "{\"status\": \"created\"}")

  /** How a registration request ends; every outcome but `Created` is an
      uncaught exception in the view. */
  datatype RegisterOutcome =
    | WrongContentType         // the content-type assertion fails
    | UnknownPool              // the pool lookup raises
    | SecretMismatch           // the secret assertion fails
    | UnknownJob(jobId: int)   // the job lookup raises at this pair
    | Created(response: Response)

  /** The table after setting the queue id of each listed job, pair after
      pair. */
  function ApplyQueueIds(jobs: map<int, CondorJob>, pairs: seq<(int, int)>): (r: map<int, CondorJob>)
    requires forall i :: 0 <= i < |pairs| ==> pairs[i].0 in jobs
    ensures r.Keys == jobs.Keys
    decreases |pairs|
  {
    if pairs == [] then jobs
    else
      var prev := ApplyQueueIds(jobs, pairs[..|pairs| - 1]);
      var (id, q) := pairs[|pairs| - 1];
      prev[id := prev[id].(queueId := Some(q))]
  }

  /** The value paired with `id` by its last pair, if any. */
  function LastQueueIdFor(pairs: seq<(int, int)>, id: int): (r: Option<int>)
    ensures r.None? <==> forall i :: 0 <= i < |pairs| ==> pairs[i].0 != id
    ensures r.Some? ==> exists i :: 0 <= i < |pairs| && pairs[i] == (id, r.value)
                                    && forall j :: i < j < |pairs| ==> pairs[j].0 != id
    decreases |pairs|
  {
    if pairs == [] then None
    else if pairs[|pairs| - 1].0 == id then Some(pairs[|pairs| - 1].1)
    else
      var r := LastQueueIdFor(pairs[..|pairs| - 1], id);
      LastQueueIdStep(pairs, id, r);
      r
  }

  /** A last pair naming another job leaves the answer of the earlier pairs
      standing. */
  lemma LastQueueIdStep(pairs: seq<(int, int)>, id: int, r: Option<int>)
    requires pairs != [] && pairs[|pairs| - 1].0 != id
    requires var init := pairs[..|pairs| - 1];
             && (r.None? <==> forall i :: 0 <= i < |init| ==> init[i].0 != id)
             && (r.Some? ==> exists i :: 0 <= i < |init| && init[i] == (id, r.value)
                                         && forall j :: i < j < |init| ==> init[j].0 != id)
    ensures r.None? <==> forall i :: 0 <= i < |pairs| ==> pairs[i].0 != id
    ensures r.Some? ==> exists i :: 0 <= i < |pairs| && pairs[i] == (id, r.value)
                                    && forall j :: i < j < |pairs| ==> pairs[j].0 != id
  {
    var init := pairs[..|pairs| - 1];
    assert forall i :: 0 <= i < |init| ==> init[i] == pairs[i];
    if r.Some? {
      var i :| 0 <= i < |init| && init[i] == (id, r.value) && forall j :: i < j < |init| ==> init[j].0 != id;
      assert pairs[i] == (id, r.value);
    }
  }

  /** Each job ends with the queue id of its last pair; a job no pair names
      is untouched; no column other than the queue id changes. */
  lemma {:induction false} ApplyQueueIdsSpec(jobs: map<int, CondorJob>, pairs: seq<(int, int)>, id: int)
    requires forall i :: 0 <= i < |pairs| ==> pairs[i].0 in jobs
    requires id in jobs
    ensures ApplyQueueIds(jobs, pairs)[id] ==
              match LastQueueIdFor(pairs, id)
              case None => jobs[id]
              case Some(q) => jobs[id].(queueId := Some(q))
    decreases |pairs|
  {
    if pairs != [] {
      ApplyQueueIdsSpec(jobs, pairs[..|pairs| - 1], id);
    }
  }

  /** The index of the first pair naming a job that is not in the table, or
      the number of pairs when every job exists. */
  function FirstUnknownJob(jobs: map<int, CondorJob>, pairs: seq<(int, int)>): (k: nat)
    ensures k <= |pairs|
    ensures forall i :: 0 <= i < k ==> pairs[i].0 in jobs
    ensures k < |pairs| ==> pairs[k].0 !in jobs
    decreases |pairs|
  {
    if pairs == [] || pairs[0].0 !in jobs then 0 else 1 + FirstUnknownJob(jobs, pairs[1..])
  }

  /** The job table and the secret of every pool. */
  class JobStore {
    var jobs: map<int, CondorJob>
    var poolSecrets: map<int, string>

    constructor (jobs: map<int, CondorJob>, poolSecrets: map<int, string>)
      ensures this.jobs == jobs && this.poolSecrets == poolSecrets
    {
      this.jobs := jobs;
      this.poolSecrets := poolSecrets;
    }

    /** `RegisterJobView.post`. The pairs are applied in list order and
        saved one by one, so a missing job stops the loop with the earlier
        pairs already applied; nothing is written before the caller is
        authenticated. */
    method RegisterJob(contentType: string, poolId: int, secretKey: string, condorJobs: seq<(int, int)>)
      returns (r: RegisterOutcome)
      modifies this
      ensures poolSecrets == old(poolSecrets)
      ensures contentType != JsonType ==> r == WrongContentType && jobs == old(jobs)
      ensures contentType == JsonType && poolId !in poolSecrets ==> r == UnknownPool && jobs == old(jobs)
      ensures contentType == JsonType && poolId in poolSecrets && poolSecrets[poolId] != secretKey ==>
                r == SecretMismatch && jobs == old(jobs)
      ensures contentType == JsonType && poolId in poolSecrets && poolSecrets[poolId] == secretKey ==>
                var k := FirstUnknownJob(old(jobs), condorJobs);
                && jobs == ApplyQueueIds(old(jobs), condorJobs[..k])
                && (k == |condorJobs| ==> r == Created(CreatedResponse))
                && (k < |condorJobs| ==> r == UnknownJob(condorJobs[k].0))
    {
      if contentType != JsonType {
        return WrongContentType;
      }
      if poolId !in poolSecrets {
        return UnknownPool;
      }
      if poolSecrets[poolId] != secretKey {
        return SecretMismatch;
      }
      ghost var k := FirstUnknownJob(jobs, condorJobs);
      var i := 0;
      while i < |condorJobs|
        invariant 0 <= i <= k
        invariant jobs == ApplyQueueIds(old(jobs), condorJobs[..i])
        invariant poolSecrets == old(poolSecrets)
      {
        var (jobId, queueId) := condorJobs[i];
        if jobId !in jobs {
          return UnknownJob(jobId);
        }
        assert condorJobs[..i + 1][..i] == condorJobs[..i];
        jobs := jobs[jobId := jobs[jobId].(queueId := Some(queueId))];
        i := i + 1;
      }
      assert condorJobs[..i] == condorJobs;
      return Created(CreatedResponse);
    }

    /** `UpdateStatusView.post`: it checks the content type and answers like
        a successful registration; it writes nothing. */
    method UpdateStatus(contentType: string) returns (r: RegisterOutcome)
      ensures r.Created? <==> contentType == JsonType
      ensures r.Created? ==> r.response == CreatedResponse
      ensures !r.Created? ==> r == WrongContentType
    {
      if contentType != JsonType {
        return WrongContentType;
      }
      return Created(CreatedResponse);
    }
  }

  /** With every listed job present, the whole table is the reference
      update: last pair wins, other jobs and other columns unchanged. */
  lemma RegisteredTable(jobs: map<int, CondorJob>, pairs: seq<(int, int)>)
    requires FirstUnknownJob(jobs, pairs) == |pairs|
    ensures pairs[..FirstUnknownJob(jobs, pairs)] == pairs
    ensures forall id :: id in jobs ==>
              ApplyQueueIds(jobs, pairs)[id] ==
                match LastQueueIdFor(pairs, id)
                case None => jobs[id]
                case Some(q) => jobs[id].(queueId := Some(q))
  {
    forall id | id in jobs
      ensures ApplyQueueIds(jobs, pairs)[id] ==
                match LastQueueIdFor(pairs, id)
                case None => jobs[id]
                case Some(q) => jobs[id].(queueId := Some(q))
    {
      ApplyQueueIdsSpec(jobs, pairs, id);
    }
  }

  /** A later pair for the same job overrides an earlier one. */
  lemma LaterDuplicateWins(jobs: map<int, CondorJob>, id: int, first: int, second: int)
    requires id in jobs
    ensures ApplyQueueIds(jobs, [(id, first), (id, second)])[id].queueId == Some(second)
  {
    ApplyQueueIdsSpec(jobs, [(id, first), (id, second)], id);
  }
}
