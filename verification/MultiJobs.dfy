/** Sequential multi-client jobs: the dispatch loop of executeMultiClientJob and
    createAndRunJob (server/api_helper_jobs.go) against the command-result branch
    of the listener (server/client_listener.go), step by step.

    The loop and the listener run concurrently, so a run is any interleaving of
    their steps. An agent reports a job it was sent at most once, and a job whose
    dispatch failed never runs; `Duplicate` below drops the first of these. */
module MultiJobs {

  type JobId = nat

  /** The run: how many clients, and whether it stops at the first error. The
      done channel is buffered for every client. */
  datatype Params = Params(clients: nat, abortOnErr: bool)

  datatype Report = Report(jid: JobId, failed: bool)

  /** Where the dispatch loop stands. A job is sent before its row is stored. */
  datatype Pc =
    | Next(i: nat)
    | Sent(i: nat, jid: JobId)
    | Waiting(i: nat, jid: JobId)
    | Finished

  datatype DispatchError = NotConnected | OtherError

  /** What the loop did, for statements about whole runs. */
  datatype Event =
    | Dispatched(i: nat, jid: JobId)
    | NotDispatched(i: nat, error: DispatchError)
    | Received(i: nat, jid: JobId, report: Report)

  datatype State = State(
    pc: Pc,
    used: set<JobId>,         // ids generated so far
    running: set<JobId>,      // jobs an agent has yet to report
    rows: set<JobId>,         // job rows in the database
    done: seq<Report>,        // the done channel
    lost: set<JobId>,         // jobs whose report was not saved
    dropped: nat,             // results the non-blocking send gave up on
    log: seq<Event>)

  datatype Step =
    | Dispatch(jid: JobId)
    | DispatchFails(jid: JobId, error: DispatchError, stored: bool)
    | NoJobId
    | StoreRow(stored: bool)
    | AgentReports(jid: JobId, failed: bool, saved: bool)
    | Receive
    | End

  function Initial(): State {
    State(Next(0), {}, {}, {}, [], {}, 0, [])
  }

  predicate Enabled(p: Params, s: State, step: Step) {
    match step
    case Dispatch(jid) => s.pc.Next? && s.pc.i < p.clients && jid !in s.used
    case DispatchFails(jid, _, _) => s.pc.Next? && s.pc.i < p.clients && jid !in s.used
    case NoJobId => s.pc.Next? && s.pc.i < p.clients
    case StoreRow(_) => s.pc.Sent?
    case AgentReports(jid, _, _) => jid in s.running
    case Receive => s.pc.Waiting? && s.done != []
    case End => s.pc.Next? && s.pc.i >= p.clients
  }

  /** The listener's side of a report: lost if there is no row for it yet or it
      cannot be saved (`saved` is false when the payload does not decode or the
      database fails), delivered to the run's channel while the run is registered,
      dropped if the channel is full. */
  function Deliver(p: Params, s: State, r: Report, saved: bool): State {
    if r.jid !in s.rows || !saved then s.(lost := s.lost + {r.jid})
    else if s.pc.Finished? then s
    else if |s.done| < p.clients then s.(done := s.done + [r])
    else s.(dropped := s.dropped + 1)
  }

  function Apply(p: Params, s: State, step: Step): State
    requires Enabled(p, s, step)
  {
    match step
    case Dispatch(jid) =>
      s.(pc := Sent(s.pc.i, jid), used := s.used + {jid}, running := s.running + {jid},
         log := s.log + [Dispatched(s.pc.i, jid)])
    case DispatchFails(jid, error, stored) =>
      s.(pc := if p.abortOnErr && error != NotConnected then Finished else Next(s.pc.i + 1),
         used := s.used + {jid}, rows := if stored then s.rows + {jid} else s.rows,
         log := s.log + [NotDispatched(s.pc.i, error)])
    case NoJobId => s.(pc := Finished)
    case StoreRow(stored) =>
      s.(pc := Waiting(s.pc.i, s.pc.jid), rows := if stored then s.rows + {s.pc.jid} else s.rows)
    case AgentReports(jid, failed, saved) =>
      Deliver(p, s.(running := s.running - {jid}), Report(jid, failed), saved)
    case Receive =>
      var r := s.done[0];
      s.(pc := if p.abortOnErr && r.failed then Finished else Next(s.pc.i + 1),
         done := s.done[1..], log := s.log + [Received(s.pc.i, s.pc.jid, r)])
    case End => s.(pc := Finished)
  }

  ghost predicate Run(p: Params, states: seq<State>, steps: seq<Step>) {
    && |states| == |steps| + 1
    && states[0] == Initial()
    && forall k :: 0 <= k < |steps| ==> Enabled(p, states[k], steps[k]) && states[k + 1] == Apply(p, states[k], steps[k])
  }

  /** A failed result, or a dispatch error other than not-connected. */
  predicate Stops(e: Event) {
    match e
    case Dispatched(_, _) => false
    case NotDispatched(_, error) => error != NotConnected
    case Received(_, _, r) => r.failed
  }

  /** Each wait took the report of the job dispatched last. */
  predicate OwnResults(log: seq<Event>) {
    forall k :: 0 <= k < |log| && log[k].Received? ==>
      && log[k].report.jid == log[k].jid
      && k > 0 && log[k - 1] == Dispatched(log[k].i, log[k].jid)
  }

  /** The clients are tried in order, each once. */
  predicate InOrder(log: seq<Event>) {
    forall j, k :: 0 <= j < k < |log| && !log[j].Received? && !log[k].Received? ==> log[j].i < log[k].i
  }

  /** Nothing follows an event that stops an aborting run. */
  predicate NothingAfterStop(log: seq<Event>) {
    forall j :: 0 <= j < |log| - 1 ==> !Stops(log[j])
  }

  /** The state of the job being waited for: running, reported into the channel,
      or lost. */
  ghost predicate Waits(s: State, jid: JobId) {
    && s.running + s.lost * {jid} + (set r | r in s.done :: r.jid) == {jid}
    && |s.done| <= 1
    && (jid in s.running ==> s.done == [] && jid !in s.lost)
    && (s.done != [] ==> jid !in s.lost)
  }

  ghost predicate Inv(p: Params, s: State) {
    && s.running + s.rows + s.lost <= s.used
    && s.dropped == 0
    && OwnResults(s.log) && InOrder(s.log)
    && (p.abortOnErr ==> NothingAfterStop(s.log))
    && (forall k :: 0 <= k < |s.log| ==> s.log[k].i < p.clients)
    && match s.pc
       case Next(i) =>
         && s.running == {} && s.done == []
         && (forall k :: 0 <= k < |s.log| ==> s.log[k].i < i)
         && (p.abortOnErr ==> forall k :: 0 <= k < |s.log| ==> !Stops(s.log[k]))
       case Sent(i, jid) =>
         && i < p.clients && jid in s.used && jid !in s.rows && s.done == []
         && s.running + s.lost * {jid} == {jid} && (jid in s.running ==> jid !in s.lost)
         && LastDispatched(p, s.log, i, jid)
       case Waiting(i, jid) =>
         && i < p.clients && jid in s.used
         && Waits(s, jid)
         && LastDispatched(p, s.log, i, jid)
       case Finished => s.running == {} && s.done == []
  }

  predicate LastDispatched(p: Params, log: seq<Event>, i: nat, jid: JobId) {
    && log != [] && log[|log| - 1] == Dispatched(i, jid)
    && (forall k :: 0 <= k < |log| ==> log[k].i <= i)
    && (p.abortOnErr ==> forall k :: 0 <= k < |log| ==> !Stops(log[k]))
  }

  lemma InvInitial(p: Params)
    ensures Inv(p, Initial())
  {}

  lemma DispatchKeepsInv(p: Params, s: State, step: Step)
    requires Inv(p, s) && Enabled(p, s, step) && step.Dispatch?
    ensures Inv(p, Apply(p, s, step))
  {}

  lemma DispatchErrorKeepsInv(p: Params, s: State, step: Step)
    requires Inv(p, s) && Enabled(p, s, step) && step.DispatchFails?
    ensures Inv(p, Apply(p, s, step))
  {}

  lemma ReportKeepsInv(p: Params, s: State, step: Step)
    requires Inv(p, s) && Enabled(p, s, step) && step.AgentReports?
    ensures Inv(p, Apply(p, s, step))
  {}

  lemma ReceiveKeepsInv(p: Params, s: State)
    requires Inv(p, s) && Enabled(p, s, Receive)
    ensures Inv(p, Apply(p, s, Receive))
  {
    assert s.done[0].jid == s.pc.jid;
  }

  lemma OthersKeepInv(p: Params, s: State, step: Step)
    requires Inv(p, s) && Enabled(p, s, step) && (step.NoJobId? || step.StoreRow? || step.End?)
    ensures Inv(p, Apply(p, s, step))
  {}

  lemma {:induction false} RunInvariant(p: Params, states: seq<State>, steps: seq<Step>, k: nat)
    requires Run(p, states, steps) && k < |states|
    ensures Inv(p, states[k])
  {
    hide Inv, Apply, Enabled;
    if k == 0 {
      InvInitial(p);
    } else {
      RunInvariant(p, states, steps, k - 1);
      var s, step := states[k - 1], steps[k - 1];
      if step.Dispatch? {
        DispatchKeepsInv(p, s, step);
      } else if step.DispatchFails? {
        DispatchErrorKeepsInv(p, s, step);
      } else if step.AgentReports? {
        ReportKeepsInv(p, s, step);
      } else if step.Receive? {
        ReceiveKeepsInv(p, s);
      } else {
        OthersKeepInv(p, s, step);
      }
    }
  }

  /** Over every run: at most one job is outstanding, no result is dropped, every
      wait takes the report of the job just dispatched, clients are tried in
      order, and an aborting run does nothing after a failed result or a dispatch
      error other than not-connected. */
  lemma SequentialRunsAreSafe(p: Params, states: seq<State>, steps: seq<Step>, k: nat)
    requires Run(p, states, steps) && k < |states|
    ensures |states[k].running| <= 1 && states[k].dropped == 0
    ensures OwnResults(states[k].log) && InOrder(states[k].log)
    ensures p.abortOnErr ==> NothingAfterStop(states[k].log)
  {
    RunInvariant(p, states, steps, k);
    var s := states[k];
    if s.pc.Sent? || s.pc.Waiting? {
      assert s.running <= {s.pc.jid};
      if s.running != {} {
        assert s.running == {s.pc.jid};
      }
    }
  }

  /** Client number `i` was tried. */
  predicate Tried(log: seq<Event>, i: nat) {
    exists k :: 0 <= k < |log| && !log[k].Received? && log[k].i == i
  }

  predicate TriedUpTo(log: seq<Event>, n: nat) {
    forall i :: 0 <= i < n ==> Tried(log, i)
  }

  /** How far the loop is, and what it takes for it to be over; `noId` says that it
      could not get a job id. */
  predicate GoesOn(p: Params, s: State, noId: bool) {
    match s.pc
    case Next(i) => i <= p.clients && TriedUpTo(s.log, i)
    case Sent(i, _) => i < p.clients && TriedUpTo(s.log, i + 1)
    case Waiting(i, _) => i < p.clients && TriedUpTo(s.log, i + 1)
    case Finished =>
      || noId || TriedUpTo(s.log, p.clients)
      || (p.abortOnErr && s.log != [] && Stops(s.log[|s.log| - 1]))
  }

  lemma TriedStays(log: seq<Event>, e: Event, n: nat)
    requires TriedUpTo(log, n)
    ensures TriedUpTo(log + [e], n)
    ensures !e.Received? && e.i == n ==> TriedUpTo(log + [e], n + 1)
  {
    forall i | 0 <= i < n ensures Tried(log + [e], i) {
      assert Tried(log, i);
      var k :| 0 <= k < |log| && !log[k].Received? && log[k].i == i;
      assert (log + [e])[k] == log[k];
    }
    assert (log + [e])[|log|] == e;
  }

  lemma GoesOnStep(p: Params, s: State, step: Step, noId: bool)
    requires GoesOn(p, s, noId) && Enabled(p, s, step)
    ensures GoesOn(p, Apply(p, s, step), noId || step.NoJobId?)
  {
    hide TriedUpTo;
    match step
    case Dispatch(jid) => TriedStays(s.log, Dispatched(s.pc.i, jid), s.pc.i);
    case DispatchFails(_, error, _) => TriedStays(s.log, NotDispatched(s.pc.i, error), s.pc.i);
    case Receive => TriedStays(s.log, Received(s.pc.i, s.pc.jid, s.done[0]), s.pc.i + 1);
    case _ =>
  }

  /** Over every run: when the loop is over, every client was tried; or no job id
      could be got; or the run aborts on errors and the last thing that happened was
      one. In particular a run that does not abort goes on after every failure. */
  lemma {:induction false} OverMeans(p: Params, states: seq<State>, steps: seq<Step>, k: nat)
    requires Run(p, states, steps) && k < |states|
    ensures GoesOn(p, states[k], exists i :: 0 <= i < k && steps[i].NoJobId?)
  {
    hide Apply, Enabled, GoesOn, TriedUpTo;
    if k == 0 {
      NothingTried(p);
    } else {
      OverMeans(p, states, steps, k - 1);
      GoesOnStep(p, states[k - 1], steps[k - 1], exists i :: 0 <= i < k - 1 && steps[i].NoJobId?);
      assert (exists i :: 0 <= i < k && steps[i].NoJobId?) <==>
             (exists i :: 0 <= i < k - 1 && steps[i].NoJobId?) || steps[k - 1].NoJobId?;
    }
  }

  lemma NothingTried(p: Params)
    ensures GoesOn(p, Initial(), false)
  {}

  /** Every result in the channel or received is as an agent reported it. */
  ghost predicate AsReported(steps: seq<Step>, k: nat, r: Report)
    requires k <= |steps|
  {
    exists i :: 0 <= i < k && steps[i] == AgentReports(r.jid, r.failed, true)
  }

  lemma {:induction false} ResultsAreReported(p: Params, states: seq<State>, steps: seq<Step>, k: nat)
    requires Run(p, states, steps) && k < |states|
    ensures forall i :: 0 <= i < |states[k].done| ==> AsReported(steps, k, states[k].done[i])
    ensures forall i :: 0 <= i < |states[k].log| && states[k].log[i].Received? ==> AsReported(steps, k, states[k].log[i].report)
  {
    assert states[0] == Initial();
    if k > 0 {
      ResultsAreReported(p, states, steps, k - 1);
      var s, s', step := states[k - 1], states[k], steps[k - 1];
      assert s' == Apply(p, s, step);
      forall r | AsReported(steps, k - 1, r) ensures AsReported(steps, k, r) {
      }
      forall i | 0 <= i < |s'.done| ensures AsReported(steps, k, s'.done[i]) {
        if step.AgentReports? && i == |s.done| {
          assert steps[k - 1] == AgentReports(step.jid, step.failed, true);
        } else {
          assert s'.done[i] == s.done[if step.Receive? then i + 1 else i];
        }
      }
      forall i | 0 <= i < |s'.log| && s'.log[i].Received? ensures AsReported(steps, k, s'.log[i].report) {
        if i == |s.log| {
          assert s'.log[i].report == s.done[0];
        } else {
          assert s'.log[i] == s.log[i];
        }
      }
    }
  }

  /** A step in which the job's report gets lost: it comes before the row is
      stored, or the row was never stored, or saving it fails. */
  predicate Loses(s: State, step: Step, jid: JobId) {
    step.AgentReports? && step.jid == jid && (jid !in s.rows || !step.saved)
  }

  lemma LossStep(p: Params, s: State, step: Step, jid: JobId)
    requires Enabled(p, s, step)
    ensures jid in Apply(p, s, step).lost <==> jid in s.lost || Loses(s, step, jid)
  {}

  lemma {:induction false} LostIff(p: Params, states: seq<State>, steps: seq<Step>, k: nat, jid: JobId)
    requires Run(p, states, steps) && k < |states|
    ensures jid in states[k].lost <==> exists i :: 0 <= i < k && Loses(states[i], steps[i], jid)
  {
    hide Apply, Enabled, Loses;
    assert states[0] == Initial();
    if k > 0 {
      LostIff(p, states, steps, k - 1, jid);
      LossStep(p, states[k - 1], steps[k - 1], jid);
    }
  }

  /** A run gets stuck in a wait exactly when the report of the job it waits for
      got lost on the way. Otherwise the agent still has to report, or the result
      is in the channel. */
  lemma StuckIffReportLost(p: Params, states: seq<State>, steps: seq<Step>, k: nat)
    requires Run(p, states, steps) && k < |states| && states[k].pc.Waiting?
    ensures (forall step :: !Enabled(p, states[k], step)) <==>
            exists i :: 0 <= i < k && Loses(states[i], steps[i], states[k].pc.jid)
  {
    hide Loses;
    RunInvariant(p, states, steps, k);
    LostIff(p, states, steps, k, states[k].pc.jid);
    WaitIsStuckIff(p, states[k]);
  }

  lemma WaitIsStuckIff(p: Params, s: State)
    requires Inv(p, s) && s.pc.Waiting?
    ensures s.pc.jid in s.lost <==> forall step :: !Enabled(p, s, step)
  {
    if s.pc.jid !in s.lost {
      if s.running != {} {
        assert Enabled(p, s, AgentReports(s.pc.jid, false, true));
      } else {
        assert Enabled(p, s, Receive);
      }
    }
  }

  /** A quick command gets there: its report overtakes the row that
      createAndRunJob stores after dispatching, and the run waits for ever. */
  lemma EarlyReportSticks(p: Params) returns (states: seq<State>, steps: seq<Step>)
    requires p.clients > 0
    ensures Run(p, states, steps) && |states| == 4
    ensures states[3].pc == Waiting(0, 7) && forall step :: !Enabled(p, states[3], step)
  {
    steps := [Dispatch(7), AgentReports(7, false, true), StoreRow(true)];
    var s1 := Apply(p, Initial(), steps[0]);
    var s2 := Apply(p, s1, steps[1]);
    var s3 := Apply(p, s2, steps[2]);
    states := [Initial(), s1, s2, s3];
    assert Loses(states[1], steps[1], 7);
    StuckIffReportLost(p, states, steps, 3);
  }

  /** So does a report that the database fails to save, although the row is
      there. */
  lemma UnsavedReportSticks(p: Params) returns (states: seq<State>, steps: seq<Step>)
    requires p.clients > 0
    ensures Run(p, states, steps) && |states| == 4 && 7 in states[2].rows
    ensures states[3].pc == Waiting(0, 7) && forall step :: !Enabled(p, states[3], step)
  {
    steps := [Dispatch(7), StoreRow(true), AgentReports(7, false, false)];
    var s1 := Apply(p, Initial(), steps[0]);
    var s2 := Apply(p, s1, steps[1]);
    var s3 := Apply(p, s2, steps[2]);
    states := [Initial(), s1, s2, s3];
    assert Loses(states[2], steps[2], 7);
    StuckIffReportLost(p, states, steps, 3);
  }

  /** Runs in which an agent may also report again a job it has reported. */
  datatype AnyStep = Honest(step: Step) | Duplicate(r: Report)

  predicate Allowed(p: Params, s: State, a: AnyStep) {
    match a
    case Honest(step) => Enabled(p, s, step)
    case Duplicate(r) => r.jid in s.rows && r.jid !in s.running
  }

  function After(p: Params, s: State, a: AnyStep): State
    requires Allowed(p, s, a)
  {
    match a
    case Honest(step) => Apply(p, s, step)
    case Duplicate(r) => Deliver(p, s, r, true)
  }

  ghost predicate RunWithDuplicates(p: Params, states: seq<State>, steps: seq<AnyStep>) {
    && |states| == |steps| + 1
    && states[0] == Initial()
    && forall k :: 0 <= k < |steps| ==> Allowed(p, states[k], steps[k]) && states[k + 1] == After(p, states[k], steps[k])
  }

  /** One repeated report is enough for a wait to take the wrong job's result
      while its own job is still running. */
  lemma DuplicateMisleads(p: Params) returns (states: seq<State>, steps: seq<AnyStep>)
    requires p.clients >= 2
    ensures RunWithDuplicates(p, states, steps) && |states| == 9
    ensures !OwnResults(states[8].log) && 1 in states[8].running
  {
    steps := [Honest(Dispatch(0)), Honest(StoreRow(true)), Honest(AgentReports(0, false, true)), Honest(Receive),
              Duplicate(Report(0, false)), Honest(Dispatch(1)), Honest(StoreRow(true)), Honest(Receive)];
    var s1 := After(p, Initial(), steps[0]);
    var s2 := After(p, s1, steps[1]);
    var s3 := After(p, s2, steps[2]);
    assert s3 == State(Waiting(0, 0), {0}, {}, {0}, [Report(0, false)], {}, 0, [Dispatched(0, 0)]);
    var s4 := After(p, s3, steps[3]);
    var s5 := After(p, s4, steps[4]);
    assert s5 == State(Next(1), {0}, {}, {0}, [Report(0, false)], {}, 0, [Dispatched(0, 0), Received(0, 0, Report(0, false))]);
    var s6 := After(p, s5, steps[5]);
    var s7 := After(p, s6, steps[6]);
    var s8 := After(p, s7, steps[7]);
    states := [Initial(), s1, s2, s3, s4, s5, s6, s7, s8];
    assert s8.log[3] == Received(1, 1, Report(0, false));
  }

  /** How far the loop has come. */
  function Rank(p: Params, pc: Pc): int {
    match pc
    case Next(i) => 3 * i
    case Sent(i, _) => 3 * i + 1
    case Waiting(i, _) => 3 * i + 2
    case Finished => 3 * p.clients + 1
  }

  /** Every step of the loop brings it further, so that it takes at most three for
      each client and one more; reports do not move it. */
  lemma LoopAdvances(p: Params, s: State, step: Step, noId: bool)
    requires GoesOn(p, s, noId) && Enabled(p, s, step)
    ensures
      var s' := Apply(p, s, step);
      if step.AgentReports? then s'.pc == s.pc
      else Rank(p, s.pc) < Rank(p, s'.pc) <= 3 * p.clients + 1
  {
    hide TriedUpTo;
  }

  /** A job gets its row when the server says it is stored, after it was sent or when
      it could not be, and at no other time. */
  lemma RowsFollow(p: Params, s: State, step: Step)
    requires Enabled(p, s, step)
    ensures Apply(p, s, step).rows == s.rows +
              (match step
               case StoreRow(stored) => if stored then {s.pc.jid} else {}
               case DispatchFails(jid, _, stored) => if stored then {jid} else {}
               case _ => {})
  {}
}
