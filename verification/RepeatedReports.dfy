/** Sequential multi-client jobs when agents may report a job again: exactly which
    repeated reports make a wait take another job's result. */
module RepeatedReports {
  import opened MultiJobs

  predicate IsReceive(a: AnyStep) {
    a == Honest(Receive)
  }

  /** A repeated report that gets into the channel and is not what the run is
      waiting for: it may be only if the channel is empty and the wait is for that
      very job, whose first report got lost. */
  predicate Stray(p: Params, s: State, a: AnyStep) {
    && a.Duplicate? && !s.pc.Finished? && |s.done| < p.clients
    && !(s.pc.Waiting? && s.pc.jid == a.r.jid && s.done == [])
  }

  // --- What holds of every state, whatever is repeated ---------------------------------------

  ghost predicate Shape(p: Params, s: State) {
    && s.running + s.rows <= s.used
    && (forall k :: 0 <= k < |s.done| ==> s.done[k].jid in s.rows)
    && match s.pc
       case Sent(i, jid) => i < p.clients && jid in s.used && jid !in s.rows && Sends(s.log, i, jid)
       case Waiting(i, jid) => i < p.clients && Sends(s.log, i, jid)
       case _ => true
  }

  predicate Sends(log: seq<Event>, i: nat, jid: JobId) {
    log != [] && log[|log| - 1] == Dispatched(i, jid)
  }

  lemma ShapeStep(p: Params, s: State, a: AnyStep)
    requires Shape(p, s) && Allowed(p, s, a)
    ensures Shape(p, After(p, s, a))
  {}

  lemma {:induction false} ShapeInvariant(p: Params, states: seq<State>, steps: seq<AnyStep>, k: nat)
    requires RunWithDuplicates(p, states, steps) && k < |states|
    ensures Shape(p, states[k])
  {
    hide Shape, Allowed, After;
    if k == 0 {
      ShapeInitial(p);
    } else {
      ShapeInvariant(p, states, steps, k - 1);
      ShapeStep(p, states[k - 1], steps[k - 1]);
    }
  }

  lemma ShapeInitial(p: Params)
    ensures Shape(p, Initial())
  {}

  // --- Where a stray report stands in the channel ---------------------------------------------

  /** The next thing a wait takes is its own job's result, and there is no other. */
  ghost predicate InSync(s: State) {
    && |s.done| <= 1
    && (s.done != [] ==> s.pc.Waiting? && s.done[0].jid == s.pc.jid && s.pc.jid !in s.running)
  }

  /** The wait under way still gets its own result; a stray one is behind it. */
  ghost predicate Behind(s: State) {
    s.pc.Waiting? && |s.done| >= 2 && s.done[0].jid == s.pc.jid && s.pc.jid !in s.running
  }

  /** The next wait to end takes a stray result. */
  ghost predicate Ahead(s: State) {
    s.done != [] && (s.pc.Waiting? ==> s.done[0].jid != s.pc.jid)
  }

  /** What the state is like when a stray report came in (`came`), and when it is
      now the first in the channel (`first`). */
  ghost predicate Tracks(s: State, came: bool, first: bool) {
    s.pc.Finished? ||
    (OneRuns(s) && if !came then !first && InSync(s) else if first then Ahead(s) else Behind(s))
  }

  /** Only the job sent last can be running. */
  ghost predicate OneRuns(s: State) {
    if s.pc.Sent? || s.pc.Waiting? then s.running <= {s.pc.jid} else s.running == {}
  }

  lemma HonestTracks(p: Params, s: State, step: Step, came: bool, first: bool)
    requires Shape(p, s) && Tracks(s, came, first) && Enabled(p, s, step) && step != Receive
    ensures Tracks(Apply(p, s, step), came, first)
  {}

  lemma DuplicateTracks(p: Params, s: State, a: AnyStep, came: bool, first: bool)
    requires Shape(p, s) && Tracks(s, came, first) && Allowed(p, s, a) && a.Duplicate?
    ensures Tracks(After(p, s, a), came || Stray(p, s, a), first || (Stray(p, s, a) && s.done == []))
  {}

  /** A wait takes the wrong job's result exactly if a stray one is first. */
  lemma ReceiveTracks(p: Params, s: State, came: bool, first: bool)
    requires Shape(p, s) && Tracks(s, came, first) && Enabled(p, s, Receive)
    ensures s.done[0].jid == s.pc.jid <==> !(came && first)
    ensures !(came && first) ==> Tracks(Apply(p, s, Receive), came, came)
  {}

  // --- Runs --------------------------------------------------------------------------------------

  ghost predicate Came(p: Params, states: seq<State>, steps: seq<AnyStep>, k: nat)
    requires k < |states| == |steps| + 1
  {
    exists i :: 0 <= i < k && Stray(p, states[i], steps[i])
  }

  /** A stray report came in at `i` and is first in the channel by step `j`: the
      channel was empty, or something has been received since. */
  ghost predicate FirstBy(p: Params, states: seq<State>, steps: seq<AnyStep>, i: nat, j: nat)
    requires i < j < |states| == |steps| + 1
  {
    && Stray(p, states[i], steps[i])
    && (states[i].done == [] || exists m :: i < m < j && IsReceive(steps[m]))
  }

  ghost predicate First(p: Params, states: seq<State>, steps: seq<AnyStep>, k: nat)
    requires k < |states| == |steps| + 1
  {
    exists i :: 0 <= i < k && FirstBy(p, states, steps, i, k)
  }

  /** Something was received when a stray report was first in the channel. */
  ghost predicate Misled(p: Params, states: seq<State>, steps: seq<AnyStep>, k: nat)
    requires k < |states| == |steps| + 1
  {
    exists j :: 0 <= j < k && IsReceive(steps[j]) && First(p, states, steps, j)
  }

  lemma CameStep(p: Params, states: seq<State>, steps: seq<AnyStep>, k: nat)
    requires 0 < k < |states| == |steps| + 1
    ensures Came(p, states, steps, k) <==> Came(p, states, steps, k - 1) || Stray(p, states[k - 1], steps[k - 1])
  {
    hide Stray;
  }

  lemma FirstByStep(p: Params, states: seq<State>, steps: seq<AnyStep>, i: nat, k: nat)
    requires i < k - 1 && k < |states| == |steps| + 1
    ensures FirstBy(p, states, steps, i, k) <==>
              FirstBy(p, states, steps, i, k - 1) || (Stray(p, states[i], steps[i]) && IsReceive(steps[k - 1]))
  {
    hide Stray;
  }

  lemma FirstStep(p: Params, states: seq<State>, steps: seq<AnyStep>, k: nat)
    requires 0 < k < |states| == |steps| + 1
    ensures First(p, states, steps, k) <==>
              || First(p, states, steps, k - 1)
              || (Stray(p, states[k - 1], steps[k - 1]) && states[k - 1].done == [])
              || (IsReceive(steps[k - 1]) && Came(p, states, steps, k - 1))
  {
    hide Stray, FirstBy;
    forall i | 0 <= i < k - 1
      ensures FirstBy(p, states, steps, i, k) <==>
                FirstBy(p, states, steps, i, k - 1) || (Stray(p, states[i], steps[i]) && IsReceive(steps[k - 1]))
    {
      FirstByStep(p, states, steps, i, k);
    }
    JustCame(p, states, steps, k);
    if First(p, states, steps, k - 1) {
      var i :| 0 <= i < k - 1 && FirstBy(p, states, steps, i, k - 1);
      assert FirstBy(p, states, steps, i, k);
    }
    if IsReceive(steps[k - 1]) && Came(p, states, steps, k - 1) {
      var i :| 0 <= i < k - 1 && Stray(p, states[i], steps[i]);
      assert FirstBy(p, states, steps, i, k);
    }
    if First(p, states, steps, k) {
      var i :| 0 <= i < k && FirstBy(p, states, steps, i, k);
      assert i == k - 1 || FirstBy(p, states, steps, i, k - 1) || Stray(p, states[i], steps[i]);
    }
  }

  lemma JustCame(p: Params, states: seq<State>, steps: seq<AnyStep>, k: nat)
    requires 0 < k < |states| == |steps| + 1
    ensures FirstBy(p, states, steps, k - 1, k) <==> Stray(p, states[k - 1], steps[k - 1]) && states[k - 1].done == []
  {
    hide Stray;
  }

  lemma MisledStep(p: Params, states: seq<State>, steps: seq<AnyStep>, k: nat)
    requires 0 < k < |states| == |steps| + 1
    ensures Misled(p, states, steps, k) <==>
              Misled(p, states, steps, k - 1) || (IsReceive(steps[k - 1]) && First(p, states, steps, k - 1))
  {
    hide First;
  }

  lemma FirstMeansCame(p: Params, states: seq<State>, steps: seq<AnyStep>, k: nat)
    requires k < |states| == |steps| + 1 && First(p, states, steps, k)
    ensures Came(p, states, steps, k)
  {
    hide Stray;
  }

  /** As long as no wait was misled, the state follows what came in. */
  lemma {:induction false} RunTracks(p: Params, states: seq<State>, steps: seq<AnyStep>, k: nat)
    requires RunWithDuplicates(p, states, steps) && k < |states| && !Misled(p, states, steps, k)
    ensures Tracks(states[k], Came(p, states, steps, k), First(p, states, steps, k))
    decreases k
  {
    hide Shape, Allowed, After, Tracks, Came, First, Misled, Stray;
    if k == 0 {
      StartTracks(p, states, steps);
    } else {
      MisledStep(p, states, steps, k);
      RunTracks(p, states, steps, k - 1);
      ShapeInvariant(p, states, steps, k - 1);
      CameStep(p, states, steps, k);
      FirstStep(p, states, steps, k);
      var came, first := Came(p, states, steps, k - 1), First(p, states, steps, k - 1);
      if first {
        FirstMeansCame(p, states, steps, k - 1);
      }
      TrackStep(p, states[k - 1], steps[k - 1], came, first);
    }
  }

  lemma StartTracks(p: Params, states: seq<State>, steps: seq<AnyStep>)
    requires RunWithDuplicates(p, states, steps)
    ensures Tracks(states[0], Came(p, states, steps, 0), First(p, states, steps, 0))
  {}

  lemma TrackStep(p: Params, s: State, a: AnyStep, came: bool, first: bool)
    requires Shape(p, s) && Tracks(s, came, first) && Allowed(p, s, a) && (first ==> came)
    requires !(IsReceive(a) && first)
    ensures Tracks(After(p, s, a), came || Stray(p, s, a),
                   first || (Stray(p, s, a) && s.done == []) || (IsReceive(a) && came))
  {
    hide Shape, Tracks, Enabled, Apply;
    if a.Duplicate? {
      DuplicateTracks(p, s, a, came, first);
    } else if a.step == Receive {
      ReceiveTracks(p, s, came, first);
    } else {
      HonestTracks(p, s, a.step, came, first);
    }
  }

  /** One step adds at most one event, and only a receipt can be another job's. */
  lemma OwnStep(p: Params, s: State, a: AnyStep)
    requires Shape(p, s) && Allowed(p, s, a)
    ensures OwnResults(After(p, s, a).log) <==>
              OwnResults(s.log) && (IsReceive(a) ==> s.done[0].jid == s.pc.jid)
  {
    hide OwnResults;
    if After(p, s, a).log != s.log {
      match a.step
      case Dispatch(jid) => OwnSnoc(s.log, Dispatched(s.pc.i, jid));
      case DispatchFails(_, error, _) => OwnSnoc(s.log, NotDispatched(s.pc.i, error));
      case Receive => OwnSnoc(s.log, Received(s.pc.i, s.pc.jid, s.done[0]));
      case _ =>
    }
  }

  lemma OwnSnoc(log: seq<Event>, e: Event)
    ensures OwnResults(log + [e]) <==>
              OwnResults(log) && (e.Received? ==> e.report.jid == e.jid && Sends(log, e.i, e.jid))
  {
    var log' := log + [e];
    if OwnResults(log') {
      forall k | 0 <= k < |log| && log[k].Received?
        ensures log[k].report.jid == log[k].jid && k > 0 && log[k - 1] == Dispatched(log[k].i, log[k].jid)
      {
        assert log'[k] == log[k] && log'[k].Received?;
        assert k > 0 ==> log'[k - 1] == log[k - 1];
      }
      assert log'[|log|] == e && (log != [] ==> log'[|log| - 1] == log[|log| - 1]);
    }
  }

  /** In every run with repeated reports, every wait takes the result of its own
      job exactly as long as none is received while a stray report is first in the
      channel. */
  lemma {:induction false} OwnResultsIff(p: Params, states: seq<State>, steps: seq<AnyStep>, k: nat)
    requires RunWithDuplicates(p, states, steps) && k < |states|
    ensures OwnResults(states[k].log) <==> !Misled(p, states, steps, k)
    decreases k
  {
    hide Shape, Allowed, After, Tracks, Came, First, Misled, Stray, OwnResults;
    if k == 0 {
      NothingReceived(p, states, steps);
    } else {
      OwnResultsIff(p, states, steps, k - 1);
      MisledStep(p, states, steps, k);
      ShapeInvariant(p, states, steps, k - 1);
      OwnStep(p, states[k - 1], steps[k - 1]);
      if IsReceive(steps[k - 1]) && !Misled(p, states, steps, k - 1) {
        RunTracks(p, states, steps, k - 1);
        if First(p, states, steps, k - 1) {
          FirstMeansCame(p, states, steps, k - 1);
        }
        ReceiveIsEnabled(p, states[k - 1], steps[k - 1]);
        ReceiveTracks(p, states[k - 1], Came(p, states, steps, k - 1), First(p, states, steps, k - 1));
      }
    }
  }

  lemma NothingReceived(p: Params, states: seq<State>, steps: seq<AnyStep>)
    requires RunWithDuplicates(p, states, steps)
    ensures OwnResults(states[0].log) && !Misled(p, states, steps, 0)
  {}

  lemma ReceiveIsEnabled(p: Params, s: State, a: AnyStep)
    requires Allowed(p, s, a) && IsReceive(a)
    ensures Enabled(p, s, Receive)
  {}

  /** Nothing is delivered to a run that is over. */
  lemma OverTakesNothing(p: Params, s: State, a: AnyStep)
    requires Allowed(p, s, a) && s.pc.Finished?
    ensures var s' := After(p, s, a); s'.pc.Finished? && s'.done == s.done && s'.log == s.log && s'.dropped == s.dropped
  {}
}
