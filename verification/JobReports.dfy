/** Stored jobs and the results agents report for them: saveCmdResult in
    server/client_listener.go over the job table that createAndRunJob
    (server/api_helper_jobs.go) writes. */
module JobReports {
  import opened Options

  /** What identifies or authorizes a job: written by the server. */
  datatype Identity = Identity(
    jid: string, clientID: string, clientName: string, multiJobID: Option<string>, scheduleID: Option<string>,
    command: string, cwd: string, interpreter: string, createdBy: string,
    startedAt: int, timeoutSec: int, isSudo: bool, isScript: bool)

  /** What the agent is the source of. */
  datatype Outcome = Outcome(
    status: string, finishedAt: Option<int>, error: string, result: Option<string>, pid: Option<int>, streamResult: bool)

  datatype Job = Job(id: Identity, outcome: Outcome)

  type Table = map<string, Job>

  /** GetByJID filters on the client id as well as the job id. */
  function GetByJID(jobs: Table, clientID: string, jid: string): Option<Job> {
    if jid in jobs && jobs[jid].id.clientID == clientID then Some(jobs[jid]) else None
  }

  /** The job that is stored for a report: the dispatched row with the reported
      outcome. The identity in the report is not looked at beyond its job id. */
  function Reconcile(jobs: Table, clientID: string, reported: Job): Option<Job> {
    match GetByJID(jobs, clientID, reported.id.jid)
    case None => None
    case Some(dispatched) => Some(Job(dispatched.id, reported.outcome))
  }

  class JobStore {
    var jobs: Table

    /** CreateJob: an existing row is left alone. */
    method CreateJob(job: Job, writes: bool)
      modifies this
      ensures jobs == if writes && job.id.jid !in old(jobs) then old(jobs)[job.id.jid := job] else old(jobs)
    {
      if writes && job.id.jid !in jobs {
        jobs := jobs[job.id.jid := job];
      }
    }

    /** saveCmdResult. `reported` is absent when the payload does not decode;
        `found` and `writes` are the database's answers. */
    method SaveCmdResult(reported: Option<Job>, clientID: string, found: bool, writes: bool) returns (r: Option<Job>)
      modifies this
      ensures r.Some? <==> reported.Some? && found && writes && Reconcile(old(jobs), clientID, reported.value).Some?
      ensures r.Some? ==> r == Reconcile(old(jobs), clientID, reported.value)
      ensures r.Some? ==>
                && r.value.outcome == reported.value.outcome && r.value.id.clientID == clientID
                && reported.value.id.jid in old(jobs) && r.value.id == old(jobs)[reported.value.id.jid].id
      ensures jobs == if r.Some? then old(jobs)[r.value.id.jid := r.value] else old(jobs)
    {
      if reported.None? || !found {
        return None;
      }
      var dispatched := GetByJID(jobs, clientID, reported.value.id.jid);
      if dispatched.None? {
        return None;
      }
      var resp := dispatched.value;
      resp := resp.(outcome := resp.outcome.(status := reported.value.outcome.status));
      resp := resp.(outcome := resp.outcome.(finishedAt := reported.value.outcome.finishedAt));
      resp := resp.(outcome := resp.outcome.(error := reported.value.outcome.error));
      resp := resp.(outcome := resp.outcome.(result := reported.value.outcome.result));
      resp := resp.(outcome := resp.outcome.(pid := reported.value.outcome.pid));
      resp := resp.(outcome := resp.outcome.(streamResult := reported.value.outcome.streamResult));
      if !writes {
        return None;
      }
      jobs := jobs[resp.id.jid := resp];
      return Some(resp);
    }
  }

  // --- All agents at once ---------------------------------------------------------------

  /** Reading the row and writing it back are separate steps, so reports of
      several connections interleave; each pending one remembers its connection.
      `written` records what the server wrote when it created each job. */
  datatype Pending = Pending(clientID: string, job: Job)
  datatype State = State(jobs: Table, pending: seq<Pending>, written: map<string, Identity>)

  datatype Step =
    | Create(job: Job, writes: bool)
    | Begin(clientID: string, reported: Job)
    | Commit(k: nat)
    | Abandon(k: nat)
    | Cleanup(jid: string)

  predicate Enabled(s: State, step: Step) {
    match step
    case Create(job, _) => job.id.jid !in s.written // job ids are never reused
    case Begin(clientID, reported) => Reconcile(s.jobs, clientID, reported).Some?
    case Commit(k) => k < |s.pending|
    case Abandon(k) => k < |s.pending|
    case Cleanup(_) => true
  }

  function Without(p: seq<Pending>, k: nat): seq<Pending>
    requires k < |p|
  {
    p[..k] + p[k + 1..]
  }

  function Apply(s: State, step: Step): State
    requires Enabled(s, step)
  {
    match step
    case Create(job, writes) =>
      s.(jobs := if writes && job.id.jid !in s.jobs then s.jobs[job.id.jid := job] else s.jobs,
         written := s.written[job.id.jid := job.id])
    case Begin(clientID, reported) =>
      s.(pending := s.pending + [Pending(clientID, Reconcile(s.jobs, clientID, reported).value)])
    case Commit(k) =>
      var job := s.pending[k].job;
      s.(jobs := s.jobs[job.id.jid := job], pending := Without(s.pending, k))
    case Abandon(k) => s.(pending := Without(s.pending, k))
    case Cleanup(jid) => s.(jobs := s.jobs - {jid})
  }

  ghost predicate Run(states: seq<State>, steps: seq<Step>) {
    && |states| == |steps| + 1
    && states[0] == State(map[], [], map[])
    && forall k :: 0 <= k < |steps| ==> Enabled(states[k], steps[k]) && states[k + 1] == Apply(states[k], steps[k])
  }

  /** A job carries the identity the server gave the job of that id. */
  predicate AsWritten(s: State, job: Job) {
    job.id.jid in s.written && s.written[job.id.jid] == job.id
  }

  ghost predicate Inv(s: State) {
    && (forall jid :: jid in s.jobs ==> s.jobs[jid].id.jid == jid && AsWritten(s, s.jobs[jid]))
    && (forall k :: 0 <= k < |s.pending| ==>
          AsWritten(s, s.pending[k].job) && s.pending[k].job.id.clientID == s.pending[k].clientID)
  }

  lemma InvStep(s: State, step: Step)
    requires Inv(s) && Enabled(s, step)
    ensures Inv(Apply(s, step))
  {
    var s' := Apply(s, step);
    forall k | 0 <= k < |s'.pending|
      ensures AsWritten(s', s'.pending[k].job) && s'.pending[k].job.id.clientID == s'.pending[k].clientID
    {
      if step.Commit? || step.Abandon? {
        var n := if k < step.k then k else k + 1;
        assert s'.pending[k] == s.pending[n];
      }
    }
  }

  lemma {:induction false} RunInvariant(states: seq<State>, steps: seq<Step>, k: nat)
    requires Run(states, steps) && k < |states|
    ensures Inv(states[k])
  {
    if k > 0 {
      RunInvariant(states, steps, k - 1);
      InvStep(states[k - 1], steps[k - 1]);
    }
  }

  lemma {:induction false} WrittenForever(states: seq<State>, steps: seq<Step>, j: nat, k: nat, jid: string)
    requires Run(states, steps) && j <= k < |states| && jid in states[j].written
    ensures jid in states[k].written && states[k].written[jid] == states[j].written[jid]
  {
    if j < k {
      WrittenForever(states, steps, j, k - 1, jid);
      assert states[k] == Apply(states[k - 1], steps[k - 1]);
    }
  }

  /** Over every interleaving of reports from all agents, a stored job has the
      identity the server wrote, at every later time it is stored. */
  lemma IdentityNeverChanges(states: seq<State>, steps: seq<Step>, j: nat, k: nat, jid: string)
    requires Run(states, steps) && j <= k < |states|
    requires jid in states[j].jobs && jid in states[k].jobs
    ensures states[j].jobs[jid].id == states[k].jobs[jid].id
  {
    RunInvariant(states, steps, j);
    RunInvariant(states, steps, k);
    WrittenForever(states, steps, j, k, jid);
  }

  /** A report changes one row at most, and that row belongs to the client whose
      connection it came over. */
  lemma ReportTouchesOwnJob(states: seq<State>, steps: seq<Step>, k: nat, jid: string)
    requires Run(states, steps) && k < |steps| && steps[k].Commit?
    requires jid in states[k + 1].jobs && (jid !in states[k].jobs || states[k].jobs[jid] != states[k + 1].jobs[jid])
    ensures
      var p := states[k].pending[steps[k].k];
      p.job.id.jid == jid && states[k + 1].jobs[jid].id.clientID == p.clientID
  {
    RunInvariant(states, steps, k);
    assert states[k + 1] == Apply(states[k], steps[k]);
  }

  /** A report that is taken and committed stores what the agent reported under the
      identity of the row, and leaves every other row alone. */
  lemma ReportIsStored(s: State, clientID: string, reported: Job)
    requires Inv(s) && reported.id.jid in s.jobs && s.jobs[reported.id.jid].id.clientID == clientID
    ensures
      && Enabled(s, Begin(clientID, reported))
      && var s1 := Apply(s, Begin(clientID, reported));
         && Enabled(s1, Commit(|s.pending|))
         && Apply(s1, Commit(|s.pending|)).jobs ==
              s.jobs[reported.id.jid := Job(s.jobs[reported.id.jid].id, reported.outcome)]
  {}

  /** A report of a client for a job that is not its own is not taken. */
  lemma ForeignReportIsRefused(s: State, clientID: string, reported: Job)
    requires reported.id.jid in s.jobs ==> s.jobs[reported.id.jid].id.clientID != clientID
    ensures !Enabled(s, Begin(clientID, reported))
  {}

  /** A job that is created is stored as the server wrote it. */
  lemma CreatedIsStored(s: State, job: Job)
    requires Inv(s) && Enabled(s, Create(job, true))
    ensures Apply(s, Create(job, true)).jobs == s.jobs[job.id.jid := job]
  {}

  /** A report that is not committed changes no row. */
  lemma AbandonedChangesNothing(s: State, k: nat)
    requires Enabled(s, Abandon(k))
    ensures Apply(s, Abandon(k)).jobs == s.jobs
  {}
}
