/** Pending second-factor logins (server/2fa_auth.go).

    A login session is an object; the service maps a user to the current one. A
    validation reads the current session under the lock, works on it without the
    lock, and takes the lock again to count a failure, to book a time step, or to
    consume the session. Each locked region is one step here, and a run is any
    interleaving of the steps of any number of logins and validations. */
module TwoFactor {

  type User = string
  type SessionId = nat
  type ValidationId = nat

  const MAX_FAILURES := 5

  /** expirableToken, as far as it changes: objects are told apart by id. */
  datatype Session = Session(user: User, failures: nat, pendingPassword: string)

  /** The service's maps, and the heap of sessions they point into. */
  datatype Store = Store(
    sessions: map<SessionId, Session>,
    tokensByUser: map<User, SessionId>,
    lastTotPStep: map<User, int>)

  predicate IsCurrent(st: Store, user: User, sid: SessionId) {
    user in st.tokensByUser && st.tokensByUser[user] == sid
  }

  /** A new login: SendToken's store or SetTotPLoginSession. */
  function LoggedIn(st: Store, user: User, sid: SessionId): (r: Store)
    ensures r.lastTotPStep == st.lastTotPStep
  {
    st.(sessions := st.sessions[sid := Session(user, 0, "")], tokensByUser := st.tokensByUser[user := sid])
  }

  function PendingSet(st: Store, user: User, password: string): (r: Store)
    ensures r.lastTotPStep == st.lastTotPStep && r.tokensByUser == st.tokensByUser
  {
    if user in st.tokensByUser && st.tokensByUser[user] in st.sessions then
      var sid := st.tokensByUser[user];
      st.(sessions := st.sessions[sid := st.sessions[sid].(pendingPassword := password)])
    else st
  }

  predicate Accepts(st: Store, user: User, step: int) {
    user in st.lastTotPStep ==> st.lastTotPStep[user] < step
  }

  function StepBooked(st: Store, user: User, step: int): (r: Store)
    ensures r.sessions == st.sessions && r.tokensByUser == st.tokensByUser
  {
    if Accepts(st, user, step) then st.(lastTotPStep := st.lastTotPStep[user := step]) else st
  }

  function FailureCounted(st: Store, user: User, sid: SessionId): (r: Store)
    ensures r.lastTotPStep == st.lastTotPStep
  {
    if IsCurrent(st, user, sid) && sid in st.sessions then
      var t := st.sessions[sid].(failures := st.sessions[sid].failures + 1);
      st.(sessions := st.sessions[sid := t],
          tokensByUser := if t.failures >= MAX_FAILURES then st.tokensByUser - {user} else st.tokensByUser)
    else st
  }

  function Consumed(st: Store, user: User, sid: SessionId): (r: Store)
    ensures r.lastTotPStep == st.lastTotPStep && r.sessions == st.sessions
  {
    if IsCurrent(st, user, sid) then st.(tokensByUser := st.tokensByUser - {user}) else st
  }

  /** The locked regions, as the service runs them. */
  class TwoFAService {
    var sessions: map<SessionId, Session>
    var tokensByUser: map<User, SessionId>
    var lastTotPStep: map<User, int>

    ghost function View(): Store
      reads this
    {
      Store(sessions, tokensByUser, lastTotPStep)
    }

    method AcceptTotPStep(user: User, step: int) returns (ok: bool)
      modifies this`lastTotPStep
      ensures ok <==> Accepts(old(View()), user, step)
      ensures ok <==> (user in old(lastTotPStep) ==> old(lastTotPStep)[user] < step)
      ensures View() == StepBooked(old(View()), user, step)
    {
      if user in lastTotPStep && step <= lastTotPStep[user] {
        return false;
      }
      lastTotPStep := lastTotPStep[user := step];
      return true;
    }

    method RegisterFailure(user: User, sid: SessionId)
      requires user in tokensByUser ==> tokensByUser[user] in sessions
      modifies this`sessions, this`tokensByUser
      ensures View() == FailureCounted(old(View()), user, sid)
    {
      if user !in tokensByUser || tokensByUser[user] != sid {
        return;
      }
      sessions := sessions[sid := sessions[sid].(failures := sessions[sid].failures + 1)];
      if sessions[sid].failures >= MAX_FAILURES {
        tokensByUser := tokensByUser - {user};
      }
    }

    method SetPendingPasswordChange(user: User, password: string)
      requires user in tokensByUser ==> tokensByUser[user] in sessions
      modifies this`sessions
      ensures View() == PendingSet(old(View()), user, password)
    {
      if user in tokensByUser {
        var sid := tokensByUser[user];
        sessions := sessions[sid := sessions[sid].(pendingPassword := password)];
      }
    }

    /** The last locked region of ValidateTotPCode and ValidateToken. */
    method Consume(user: User, sid: SessionId) returns (password: string)
      requires user in tokensByUser ==> tokensByUser[user] in sessions
      modifies this`tokensByUser
      ensures View() == Consumed(old(View()), user, sid)
      ensures password == if old(IsCurrent(View(), user, sid)) then old(sessions)[sid].pendingPassword else ""
    {
      password := "";
      if user in tokensByUser && tokensByUser[user] == sid {
        password := sessions[sid].pendingPassword;
        tokensByUser := tokensByUser - {user};
      }
    }
  }

  // --- Interleavings -------------------------------------------------------------------------

  /** A validation in progress: the session it read, and what comes next. */
  datatype Phase = HasRead | MustCountFailure | Verified
  datatype Validation = Validation(user: User, sid: SessionId, phase: Phase)

  /** The service, the validations in progress, and a record of what happened:
      which validation counted a failure against which session, which sessions
      gave out their pending password (and what it was), which validations
      succeeded, and the time steps accepted for each user. */
  datatype State = State(
    st: Store,
    inProgress: map<ValidationId, Validation>,
    ids: set<ValidationId>,
    readBy: map<ValidationId, SessionId>,
    counted: map<ValidationId, SessionId>,
    setOn: map<SessionId, string>,
    released: seq<(SessionId, string)>,
    succeeded: seq<(ValidationId, SessionId)>,
    steps: map<User, seq<int>>)

  datatype Step =
    | Login(user: User, sid: SessionId)
    | SetPending(user: User, password: string)
    | Read(v: ValidationId, user: User)
    | GiveUp(v: ValidationId)
    | WrongCode(v: ValidationId)
    | RightToken(v: ValidationId)
    | BookStep(v: ValidationId, step: int)
    | CountFailure(v: ValidationId)
    | Finish(v: ValidationId)

  function Initial(): State {
    State(Store(map[], map[], map[]), map[], {}, map[], map[], map[], [], [], map[])
  }

  predicate InPhase(s: State, v: ValidationId, phase: Phase) {
    v in s.inProgress && s.inProgress[v].phase == phase
  }

  predicate Enabled(s: State, step: Step) {
    match step
    case Login(user, sid) => sid !in s.st.sessions // a new object
    case SetPending(_, _) => true
    case Read(v, user) => v !in s.ids && user in s.st.tokensByUser
    case GiveUp(v) => InPhase(s, v, HasRead) // expired, or no usable key
    case WrongCode(v) => InPhase(s, v, HasRead)
    case RightToken(v) => InPhase(s, v, HasRead)
    case BookStep(v, _) => InPhase(s, v, HasRead)
    case CountFailure(v) => InPhase(s, v, MustCountFailure)
    case Finish(v) => InPhase(s, v, Verified)
  }

  function StepsOf(s: State, user: User): seq<int> {
    if user in s.steps then s.steps[user] else []
  }

  function Apply(s: State, step: Step): State
    requires Enabled(s, step)
  {
    match step
    case Login(user, sid) => s.(st := LoggedIn(s.st, user, sid))
    case SetPending(user, password) =>
      s.(st := PendingSet(s.st, user, password),
         setOn := if user in s.st.tokensByUser then s.setOn[s.st.tokensByUser[user] := password] else s.setOn)
    case Read(v, user) =>
      var sid := s.st.tokensByUser[user];
      s.(inProgress := s.inProgress[v := Validation(user, sid, HasRead)], ids := s.ids + {v},
         readBy := s.readBy[v := sid])
    case GiveUp(v) => s.(inProgress := s.inProgress - {v})
    case WrongCode(v) => s.(inProgress := s.inProgress[v := s.inProgress[v].(phase := MustCountFailure)])
    case RightToken(v) => s.(inProgress := s.inProgress[v := s.inProgress[v].(phase := Verified)])
    case BookStep(v, n) =>
      var user := s.inProgress[v].user;
      if Accepts(s.st, user, n)
      then s.(st := StepBooked(s.st, user, n), steps := s.steps[user := StepsOf(s, user) + [n]],
              inProgress := s.inProgress[v := s.inProgress[v].(phase := Verified)])
      else s.(inProgress := s.inProgress[v := s.inProgress[v].(phase := MustCountFailure)])
    case CountFailure(v) =>
      var val := s.inProgress[v];
      s.(st := FailureCounted(s.st, val.user, val.sid), inProgress := s.inProgress - {v},
         counted := if IsCurrent(s.st, val.user, val.sid) then s.counted[v := val.sid] else s.counted)
    case Finish(v) =>
      var val := s.inProgress[v];
      s.(st := Consumed(s.st, val.user, val.sid), inProgress := s.inProgress - {v},
         succeeded := s.succeeded + [(v, val.sid)],
         released := if IsCurrent(s.st, val.user, val.sid) && val.sid in s.st.sessions
                     then s.released + [(val.sid, s.st.sessions[val.sid].pendingPassword)] else s.released)
  }

  ghost predicate Run(states: seq<State>, steps: seq<Step>) {
    && |states| == |steps| + 1
    && states[0] == Initial()
    && forall k :: 0 <= k < |steps| ==> Enabled(states[k], steps[k]) && states[k + 1] == Apply(states[k], steps[k])
  }

  /** The failures of a session are those counted against it, and a session the
      service still knows has fewer than the limit. */
  ghost function CountedAgainst(s: State, sid: SessionId): set<ValidationId> {
    set v | v in s.counted && s.counted[v] == sid
  }

  ghost predicate StoreInv(s: State) {
    GoodStore(s.st)
  }

  /** A user's current session is theirs and has failures left. */
  ghost predicate GoodStore(st: Store) {
    forall u :: u in st.tokensByUser ==>
      && st.tokensByUser[u] in st.sessions && st.sessions[st.tokensByUser[u]].user == u
      && st.sessions[st.tokensByUser[u]].failures < MAX_FAILURES
  }

  ghost predicate CountsAgree(s: State) {
    forall sid :: sid in s.st.sessions ==> s.st.sessions[sid].failures == |CountedAgainst(s, sid)|
  }

  /** A failure is only ever counted against the session the validation read. */
  ghost predicate CountedWhereRead(s: State) {
    forall v :: v in s.counted ==> v in s.readBy && s.counted[v] == s.readBy[v] && s.counted[v] in s.st.sessions
  }

  ghost predicate GoodValidation(s: State, v: ValidationId)
    requires v in s.inProgress
  {
    && v in s.readBy && s.inProgress[v].sid == s.readBy[v] && v !in s.counted
    && s.inProgress[v].sid in s.st.sessions && s.st.sessions[s.inProgress[v].sid].user == s.inProgress[v].user
  }

  ghost predicate ProgressInv(s: State) {
    && (forall v :: v in s.inProgress ==> GoodValidation(s, v))
    && (forall v :: v in s.readBy ==> v in s.ids)
  }

  ghost predicate ReleaseInv(s: State) {
    && (forall i :: 0 <= i < |s.released| ==>
          s.released[i].0 in s.st.sessions && Gone(s, s.released[i].0)
          && s.released[i].1 == (if s.released[i].0 in s.setOn then s.setOn[s.released[i].0] else ""))
    && (forall i, j :: 0 <= i < j < |s.released| ==> s.released[i].0 != s.released[j].0)
    && (forall sid :: sid in s.st.sessions ==>
          s.st.sessions[sid].pendingPassword == if sid in s.setOn then s.setOn[sid] else "")
    && (forall sid :: sid in s.setOn ==> sid in s.st.sessions)
  }

  /** No user's current session. */
  ghost predicate Gone(s: State, sid: SessionId) {
    forall u :: u in s.st.tokensByUser ==> s.st.tokensByUser[u] != sid
  }

  predicate Increasing(steps: seq<int>) {
    forall i, j :: 0 <= i < j < |steps| ==> steps[i] < steps[j]
  }

  ghost predicate TotpInv(s: State) {
    LastOf(s.steps, s.st.lastTotPStep)
  }

  /** The step booked last for each user is the greatest of those accepted. */
  ghost predicate LastOf(steps: map<User, seq<int>>, last: map<User, int>) {
    && (forall u :: u in steps ==> Increasing(steps[u]) && steps[u] != [])
    && (forall u :: u in steps <==> u in last)
    && (forall u :: u in steps ==> last[u] == steps[u][|steps[u]| - 1])
  }

  lemma LoginKeepsStore(st: Store, user: User, sid: SessionId)
    requires GoodStore(st) && sid !in st.sessions
    ensures GoodStore(LoggedIn(st, user, sid))
  {}

  lemma PendingKeepsStore(st: Store, user: User, password: string)
    requires GoodStore(st)
    ensures GoodStore(PendingSet(st, user, password))
  {}

  lemma CountKeepsStore(st: Store, user: User, sid: SessionId)
    requires GoodStore(st)
    ensures GoodStore(FailureCounted(st, user, sid))
  {}

  lemma ConsumeKeepsStore(st: Store, user: User, sid: SessionId)
    requires GoodStore(st)
    ensures GoodStore(Consumed(st, user, sid))
  {}

  lemma BookKeepsStore(st: Store, user: User, step: int)
    requires GoodStore(st)
    ensures GoodStore(StepBooked(st, user, step))
  {}

  lemma StoreStep(s: State, step: Step)
    requires StoreInv(s) && Enabled(s, step)
    ensures StoreInv(Apply(s, step))
  {
    hide GoodStore, LoggedIn, PendingSet, FailureCounted, Consumed, StepBooked, Accepts, StepsOf;
    match step
    case Login(user, sid) => LoginKeepsStore(s.st, user, sid);
    case SetPending(user, password) => PendingKeepsStore(s.st, user, password);
    case CountFailure(v) => CountKeepsStore(s.st, s.inProgress[v].user, s.inProgress[v].sid);
    case Finish(v) => ConsumeKeepsStore(s.st, s.inProgress[v].user, s.inProgress[v].sid);
    case BookStep(v, n) => BookKeepsStore(s.st, s.inProgress[v].user, n);
    case _ =>
  }

  lemma BookedIsLast(steps: map<User, seq<int>>, last: map<User, int>, user: User, before: seq<int>, n: int)
    requires LastOf(steps, last) && before == (if user in steps then steps[user] else [])
    requires user in last ==> last[user] < n
    ensures LastOf(steps[user := before + [n]], last[user := n])
  {
    IncreasingSnoc(before, n);
    hide Increasing;
  }

  lemma BookKeepsTotp(s: State, v: ValidationId, n: int)
    requires TotpInv(s) && Enabled(s, BookStep(v, n))
    ensures TotpInv(Apply(s, BookStep(v, n)))
  {
    hide LastOf;
    var user := s.inProgress[v].user;
    if Accepts(s.st, user, n) {
      BookedIsLast(s.steps, s.st.lastTotPStep, user, StepsOf(s, user), n);
    }
  }

  lemma IncreasingSnoc(steps: seq<int>, n: int)
    requires Increasing(steps) && (steps != [] ==> steps[|steps| - 1] < n)
    ensures Increasing(steps + [n])
  {
    forall i, j | 0 <= i < j < |steps + [n]| ensures (steps + [n])[i] < (steps + [n])[j] {
      if j == |steps| {
        assert steps[i] <= steps[|steps| - 1];
      }
    }
  }

  lemma TotpStep(s: State, step: Step)
    requires TotpInv(s) && Enabled(s, step)
    ensures TotpInv(Apply(s, step))
  {
    hide LastOf, LoggedIn, PendingSet, FailureCounted, Consumed;
    if step.BookStep? {
      BookKeepsTotp(s, step.v, step.step);
    }
  }

  lemma LoginKeepsRelease(s: State, user: User, sid: SessionId)
    requires StoreInv(s) && ReleaseInv(s) && Enabled(s, Login(user, sid))
    ensures ReleaseInv(Apply(s, Login(user, sid)))
  {}

  lemma SetPendingKeepsRelease(s: State, user: User, password: string)
    requires StoreInv(s) && ReleaseInv(s)
    ensures ReleaseInv(Apply(s, SetPending(user, password)))
  {}

  lemma CountKeepsRelease(s: State, v: ValidationId)
    requires StoreInv(s) && ReleaseInv(s) && Enabled(s, CountFailure(v))
    ensures ReleaseInv(Apply(s, CountFailure(v)))
  {}

  lemma FinishKeepsRelease(s: State, v: ValidationId)
    requires StoreInv(s) && ReleaseInv(s) && Enabled(s, Finish(v))
    ensures ReleaseInv(Apply(s, Finish(v)))
  {
    var val, s' := s.inProgress[v], Apply(s, Finish(v));
    forall x | x in s.st.sessions && Gone(s, x) ensures Gone(s', x) {}
    if IsCurrent(s.st, val.user, val.sid) {
      OnlyOneUser(s, val.user);
      assert Gone(s', val.sid);
      forall i | 0 <= i < |s.released| ensures s.released[i].0 != val.sid {
        assert Gone(s, s.released[i].0);
      }
      hide Gone;
    } else {
      UnrelatedKeepsRelease(s, s');
    }
  }

  lemma OnlyOneUser(s: State, user: User)
    requires StoreInv(s) && user in s.st.tokensByUser
    ensures forall u :: u in s.st.tokensByUser && u != user ==> s.st.tokensByUser[u] != s.st.tokensByUser[user]
  {}

  lemma ReleaseStep(s: State, step: Step)
    requires StoreInv(s) && ReleaseInv(s) && Enabled(s, step)
    ensures ReleaseInv(Apply(s, step))
  {
    hide StoreInv, ReleaseInv, LoggedIn, PendingSet, FailureCounted, Consumed, StepBooked;
    match step
    case Login(user, sid) => LoginKeepsRelease(s, user, sid);
    case SetPending(user, password) => SetPendingKeepsRelease(s, user, password);
    case CountFailure(v) => CountKeepsRelease(s, v);
    case Finish(v) => FinishKeepsRelease(s, v);
    case Read(_, _) => UnrelatedKeepsRelease(s, Apply(s, step));
    case GiveUp(_) => UnrelatedKeepsRelease(s, Apply(s, step));
    case WrongCode(_) => UnrelatedKeepsRelease(s, Apply(s, step));
    case RightToken(_) => UnrelatedKeepsRelease(s, Apply(s, step));
    case BookStep(_, _) => UnrelatedKeepsRelease(s, Apply(s, step));
  }

  lemma UnrelatedKeepsRelease(s: State, s': State)
    requires ReleaseInv(s) && s'.released == s.released && s'.setOn == s.setOn
    requires s'.st.sessions == s.st.sessions && s'.st.tokensByUser == s.st.tokensByUser
    ensures ReleaseInv(s')
  {
    forall i | 0 <= i < |s'.released| ensures Gone(s', s'.released[i].0) {
      assert Gone(s, s.released[i].0);
    }
  }

  lemma SessionKeepsUser(s: State, step: Step, sid: SessionId)
    requires Enabled(s, step) && sid in s.st.sessions
    ensures sid in Apply(s, step).st.sessions && Apply(s, step).st.sessions[sid].user == s.st.sessions[sid].user
  {}

  lemma ReaderStaysGood(s: State, step: Step, v: ValidationId)
    requires Enabled(s, step) && v in s.inProgress && GoodValidation(s, v) && v in Apply(s, step).inProgress
    requires forall x :: x in s.readBy ==> x in s.ids
    ensures GoodValidation(Apply(s, step), v)
  {
    SessionKeepsUser(s, step, s.inProgress[v].sid);
    hide LoggedIn, PendingSet, StepBooked, FailureCounted, Consumed;
  }

  lemma NewReaderIsGood(s: State, step: Step, v: ValidationId)
    requires StoreInv(s) && CountedWhereRead(s) && (forall x :: x in s.readBy ==> x in s.ids)
    requires Enabled(s, step) && v !in s.inProgress && v in Apply(s, step).inProgress
    ensures GoodValidation(Apply(s, step), v)
  {}

  lemma ProgressStep(s: State, step: Step)
    requires StoreInv(s) && ProgressInv(s) && CountedWhereRead(s) && Enabled(s, step)
    ensures ProgressInv(Apply(s, step))
  {
    var s' := Apply(s, step);
    assert forall v :: v in s'.readBy ==> v in s'.ids;
    forall v | v in s'.inProgress ensures GoodValidation(s', v) {
      hide Apply, Enabled, GoodValidation, StoreInv, CountedWhereRead;
      if v in s.inProgress {
        ReaderStaysGood(s, step, v);
      } else {
        NewReaderIsGood(s, step, v);
      }
    }
  }

  lemma CountedStep(s: State, step: Step)
    requires ProgressInv(s) && CountedWhereRead(s) && Enabled(s, step)
    ensures CountedWhereRead(Apply(s, step))
  {
    if step.CountFailure? {
      assert GoodValidation(s, step.v);
    }
  }

  lemma SameCounts(s: State, s': State)
    requires CountsAgree(s) && s'.counted == s.counted
    requires forall x :: x in s'.st.sessions ==> x in s.st.sessions && s'.st.sessions[x].failures == s.st.sessions[x].failures
    ensures CountsAgree(s')
  {
    forall x | x in s'.st.sessions ensures s'.st.sessions[x].failures == |CountedAgainst(s', x)| {
      assert CountedAgainst(s', x) == CountedAgainst(s, x);
    }
  }

  lemma LoginKeepsCounts(s: State, user: User, sid: SessionId)
    requires CountsAgree(s) && CountedWhereRead(s) && Enabled(s, Login(user, sid))
    ensures CountsAgree(Apply(s, Login(user, sid)))
  {
    var s' := Apply(s, Login(user, sid));
    forall x | x in s'.st.sessions ensures s'.st.sessions[x].failures == |CountedAgainst(s', x)| {
      assert CountedAgainst(s', x) == CountedAgainst(s, x);
      if x == sid {
        assert CountedAgainst(s, x) == {};
      }
    }
  }

  lemma CountKeepsCounts(s: State, v: ValidationId)
    requires CountsAgree(s) && ProgressInv(s) && Enabled(s, CountFailure(v))
    ensures CountsAgree(Apply(s, CountFailure(v)))
  {
    var val, s' := s.inProgress[v], Apply(s, CountFailure(v));
    assert GoodValidation(s, v);
    if IsCurrent(s.st, val.user, val.sid) {
      assert s'.counted == s.counted[v := val.sid];
      forall x | x in s'.st.sessions ensures s'.st.sessions[x].failures == |CountedAgainst(s', x)| {
        OneMoreCounted(s, s', v, val.sid, x);
      }
    } else {
      SameCounts(s, s');
    }
  }

  lemma OneMoreCounted(s: State, s': State, v: ValidationId, sid: SessionId, x: SessionId)
    requires v !in s.counted && s'.counted == s.counted[v := sid]
    ensures |CountedAgainst(s', x)| == |CountedAgainst(s, x)| + if x == sid then 1 else 0
  {
    if x == sid {
      assert CountedAgainst(s', x) == CountedAgainst(s, x) + {v};
    } else {
      assert CountedAgainst(s', x) == CountedAgainst(s, x);
    }
  }

  lemma CountsStep(s: State, step: Step)
    requires StoreInv(s) && CountsAgree(s) && ProgressInv(s) && CountedWhereRead(s) && Enabled(s, step)
    ensures CountsAgree(Apply(s, step))
  {
    hide CountsAgree, ProgressInv, CountedWhereRead;
    if step.Login? {
      LoginKeepsCounts(s, step.user, step.sid);
    } else if step.CountFailure? {
      CountKeepsCounts(s, step.v);
    } else {
      SameCounts(s, Apply(s, step));
    }
  }

  ghost predicate Inv(s: State) {
    StoreInv(s) && ProgressInv(s) && CountedWhereRead(s) && CountsAgree(s) && ReleaseInv(s) && TotpInv(s)
  }

  lemma InvInitial()
    ensures Inv(Initial())
  {}

  lemma {:induction false} RunInvariant(states: seq<State>, steps: seq<Step>, k: nat)
    requires Run(states, steps) && k < |states|
    ensures Inv(states[k])
  {
    hide Apply, Enabled, StoreInv, ProgressInv, CountedWhereRead, CountsAgree, ReleaseInv, TotpInv;
    if k == 0 {
      InvInitial();
    } else {
      RunInvariant(states, steps, k - 1);
      var s, step := states[k - 1], steps[k - 1];
      StoreStep(s, step);
      ProgressStep(s, step);
      CountedStep(s, step);
      CountsStep(s, step);
      ReleaseStep(s, step);
      TotpStep(s, step);
    }
  }

  /** Over every interleaving: a stored session has fewer than five failures,
      and its failures are exactly the validations that read that very session
      and were counted. */
  lemma FailuresAreOwn(states: seq<State>, steps: seq<Step>, k: nat, user: User)
    requires Run(states, steps) && k < |states| && user in states[k].st.tokensByUser
    ensures
      var s := states[k];
      var sid := s.st.tokensByUser[user];
      && sid in s.st.sessions && s.st.sessions[sid].user == user
      && s.st.sessions[sid].failures == |CountedAgainst(s, sid)| < MAX_FAILURES
      && (forall v :: v in CountedAgainst(s, sid) ==> v in s.readBy && s.readBy[v] == sid)
  {
    RunInvariant(states, steps, k);
  }

  /** A pending password leaves at most once: no session gives out twice. */
  lemma PasswordLeavesOnce(states: seq<State>, steps: seq<Step>, k: nat, i: nat, j: nat)
    requires Run(states, steps) && k < |states| && i < j < |states[k].released|
    ensures states[k].released[i].0 != states[k].released[j].0
  {
    RunInvariant(states, steps, k);
  }

  /** Whatever a session gives out is what was set on that session last. */
  lemma PasswordIsOwn(states: seq<State>, steps: seq<Step>, k: nat, i: nat)
    requires Run(states, steps) && k < |states| && i < |states[k].released|
    ensures
      var s, sid := states[k], states[k].released[i].0;
      s.released[i].1 == if sid in s.setOn then s.setOn[sid] else ""
  {
    RunInvariant(states, steps, k);
  }

  /** Section 5.2 of RFC 6238: the steps accepted for one user strictly increase,
      so none is accepted twice. */
  lemma StepsAcceptedOnce(states: seq<State>, steps: seq<Step>, k: nat, user: User)
    requires Run(states, steps) && k < |states| && user in states[k].steps
    ensures Increasing(states[k].steps[user])
  {
    RunInvariant(states, steps, k);
  }

  ghost predicate Reachable(s: State) {
    exists states, steps :: Run(states, steps) && states[|states| - 1] == s
  }

  /** A session stops being a user's current one only by a new login of that
      user, or by a validation that read that very session: when it succeeds, or
      when its failure is the last one allowed. */
  lemma OnlyOwnReaderEndsSession(states: seq<State>, steps: seq<Step>, k: nat, user: User)
    requires Run(states, steps) && k < |steps| && user in states[k].st.tokensByUser
    ensures
      var s, s', step := states[k], states[k + 1], steps[k];
      var sid := s.st.tokensByUser[user];
      || IsCurrent(s'.st, user, sid)
      || (step.Login? && step.user == user)
      || (step.Finish? && step.v in s.readBy && s.readBy[step.v] == sid)
      || (step.CountFailure? && step.v in s.readBy && s.readBy[step.v] == sid
          && sid in s.st.sessions && s.st.sessions[sid].failures == MAX_FAILURES - 1)
  {
    hide CountedAgainst, CountsAgree, ReleaseInv, TotpInv;
    RunInvariant(states, steps, k);
    var s, step := states[k], steps[k];
    assert states[k + 1] == Apply(s, step);
    if step.Finish? || step.CountFailure? {
      assert GoodValidation(s, step.v);
    }
  }

  // --- Which validations succeed --------------------------------------------------------------

  /** The validation's token is right, or its code is and the time step is new. */
  predicate Passes(s: State, step: Step, v: ValidationId) {
    || step == RightToken(v)
    || (step.BookStep? && step.v == v && v in s.inProgress && Accepts(s.st, s.inProgress[v].user, step.step))
  }

  /** Its code is wrong, or the time step is used up. */
  predicate Fails(s: State, step: Step, v: ValidationId) {
    || step == WrongCode(v)
    || (step.BookStep? && step.v == v && v in s.inProgress && !Accepts(s.st, s.inProgress[v].user, step.step))
  }

  predicate Succeeded(s: State, v: ValidationId) {
    exists i :: 0 <= i < |s.succeeded| && s.succeeded[i].0 == v
  }

  /** Where a validation stands, given that it has passed or failed its check. */
  ghost predicate Stands(s: State, v: ValidationId, passed: bool, failed: bool) {
    && (v in s.inProgress ==> v in s.ids && !Succeeded(s, v))
    && if v in s.inProgress then
         match s.inProgress[v].phase
         case HasRead => !passed && !failed
         case Verified => passed && !failed
         case MustCountFailure => !passed && failed
       else if v in s.ids then !(passed && failed) && (Succeeded(s, v) <==> passed)
       else !passed && !failed && !Succeeded(s, v)
  }

  lemma SucceededStep(s: State, step: Step, v: ValidationId)
    requires Enabled(s, step)
    ensures Succeeded(Apply(s, step), v) <==> Succeeded(s, v) || step == Finish(v)
  {
    var s' := Apply(s, step);
    if step.Finish? {
      assert s'.succeeded == s.succeeded + [(step.v, s.inProgress[step.v].sid)];
      if Succeeded(s, v) {
        var i :| 0 <= i < |s.succeeded| && s.succeeded[i].0 == v;
        assert s'.succeeded[i].0 == v;
      }
      assert s'.succeeded[|s.succeeded|].0 == step.v;
    }
  }

  lemma StandsStep(s: State, step: Step, v: ValidationId, passed: bool, failed: bool)
    requires Enabled(s, step) && Stands(s, v, passed, failed)
    ensures Stands(Apply(s, step), v, passed || Passes(s, step, v), failed || Fails(s, step, v))
  {
    hide LoggedIn, PendingSet, StepBooked, FailureCounted, Consumed, Succeeded, Accepts;
    SucceededStep(s, step, v);
  }

  ghost predicate HasPassed(states: seq<State>, steps: seq<Step>, k: nat, v: ValidationId)
    requires k < |states| == |steps| + 1
  {
    exists i :: 0 <= i < k && Passes(states[i], steps[i], v)
  }

  ghost predicate HasFailed(states: seq<State>, steps: seq<Step>, k: nat, v: ValidationId)
    requires k < |states| == |steps| + 1
  {
    exists i :: 0 <= i < k && Fails(states[i], steps[i], v)
  }

  lemma {:induction false} RunStands(states: seq<State>, steps: seq<Step>, k: nat, v: ValidationId)
    requires Run(states, steps) && k < |states|
    ensures Stands(states[k], v, HasPassed(states, steps, k, v), HasFailed(states, steps, k, v))
  {
    hide Apply, Enabled, Stands, Passes, Fails;
    if k == 0 {
      assert states[0] == Initial();
      StandsInitial(v);
    } else {
      RunStands(states, steps, k - 1, v);
      StandsStep(states[k - 1], steps[k - 1], v, HasPassed(states, steps, k - 1, v), HasFailed(states, steps, k - 1, v));
      assert HasPassed(states, steps, k, v) <==> HasPassed(states, steps, k - 1, v) || Passes(states[k - 1], steps[k - 1], v);
      assert HasFailed(states, steps, k, v) <==> HasFailed(states, steps, k - 1, v) || Fails(states[k - 1], steps[k - 1], v);
    }
  }

  lemma StandsInitial(v: ValidationId)
    ensures Stands(Initial(), v, false, false)
  {}

  /** In every interleaving, a validation that has come to its end succeeded exactly
      if its token was right, or its code was and the time step was new; one whose
      code was wrong or used up never succeeds. */
  lemma SucceedsIffPassed(states: seq<State>, steps: seq<Step>, k: nat, v: ValidationId)
    requires Run(states, steps) && k < |states|
    ensures v in states[k].ids && v !in states[k].inProgress ==>
              (Succeeded(states[k], v) <==> HasPassed(states, steps, k, v))
    ensures Succeeded(states[k], v) ==> HasPassed(states, steps, k, v) && !HasFailed(states, steps, k, v)
  {
    hide HasPassed, HasFailed, Succeeded;
    RunStands(states, steps, k, v);
  }

  ghost predicate HasCounted(steps: seq<Step>, k: nat, v: ValidationId)
    requires k <= |steps|
  {
    exists i :: 0 <= i < k && steps[i] == CountFailure(v)
  }

  lemma CountingStep(s: State, step: Step, v: ValidationId)
    requires Enabled(s, step) && (v in s.inProgress ==> v in s.ids)
    ensures InPhase(s, v, MustCountFailure) ==> InPhase(Apply(s, step), v, MustCountFailure) || step == CountFailure(v)
    ensures Fails(s, step, v) ==> InPhase(Apply(s, step), v, MustCountFailure)
  {
    hide LoggedIn, PendingSet, StepBooked, FailureCounted, Consumed, Accepts;
  }

  /** In every interleaving, a validation whose code was wrong or used up goes on to
      count a failure, and does not end otherwise. */
  lemma {:induction false} FailureIsNotSkipped(states: seq<State>, steps: seq<Step>, k: nat, v: ValidationId)
    requires Run(states, steps) && k < |states| && HasFailed(states, steps, k, v)
    ensures InPhase(states[k], v, MustCountFailure) || HasCounted(steps, k, v)
  {
    hide Apply, Enabled, Stands, Passes, Fails, InPhase;
    RunStands(states, steps, k - 1, v);
    StandsIds(states[k - 1], v, HasPassed(states, steps, k - 1, v), HasFailed(states, steps, k - 1, v));
    CountingStep(states[k - 1], steps[k - 1], v);
    if HasFailed(states, steps, k - 1, v) {
      FailureIsNotSkipped(states, steps, k - 1, v);
    }
  }

  lemma StandsIds(s: State, v: ValidationId, passed: bool, failed: bool)
    requires Stands(s, v, passed, failed)
    ensures v in s.inProgress ==> v in s.ids
  {}

  /** In every interleaving, a time step is accepted for a user exactly if it is
      later than all that were accepted before. */
  lemma LaterStepIsAccepted(states: seq<State>, steps: seq<Step>, k: nat, v: ValidationId, n: int)
    requires Run(states, steps) && k < |states| && InPhase(states[k], v, HasRead)
    ensures InPhase(Apply(states[k], BookStep(v, n)), v, Verified) <==>
              forall i :: 0 <= i < |StepsOf(states[k], states[k].inProgress[v].user)| ==>
                StepsOf(states[k], states[k].inProgress[v].user)[i] < n
  {
    RunInvariant(states, steps, k);
    hide StoreInv, ProgressInv, CountedWhereRead, CountsAgree, ReleaseInv;
    var s, user := states[k], states[k].inProgress[v].user;
    var before := StepsOf(s, user);
    if before != [] {
      assert s.st.lastTotPStep[user] == before[|before| - 1];
    }
  }

  /** A failure that is counted while the session is still the user's raises its
      count by one and ends it at the limit; otherwise nothing is counted. */
  lemma FailureIsCounted(s: State, v: ValidationId)
    requires StoreInv(s) && ProgressInv(s) && Enabled(s, CountFailure(v))
    ensures
      var s', user, sid := Apply(s, CountFailure(v)), s.inProgress[v].user, s.inProgress[v].sid;
      && v !in s'.inProgress
      && if IsCurrent(s.st, user, sid) then
           && sid in s.st.sessions && sid in s'.st.sessions
           && s'.st.sessions[sid] == s.st.sessions[sid].(failures := s.st.sessions[sid].failures + 1)
           && (IsCurrent(s'.st, user, sid) <==> s.st.sessions[sid].failures + 1 < 5)
         else s'.st == s.st
  {
    assert GoodValidation(s, v);
  }

  lemma ReachInitial()
    ensures Reachable(Initial())
  {
    assert Run([Initial()], []);
  }

  lemma ReachStep(s: State, step: Step)
    requires Reachable(s) && Enabled(s, step)
    ensures Reachable(Apply(s, step))
  {
    hide Apply, Enabled;
    var states, steps :| Run(states, steps) && states[|states| - 1] == s;
    assert Run(states + [Apply(s, step)], steps + [step]);
  }

  lemma BothVerified(user: User) returns (s: State)
    ensures Reachable(s) && s.succeeded == [] && s.released == []
    ensures s.inProgress == map[1 := Validation(user, 0, Verified), 2 := Validation(user, 0, Verified)]
    ensures s.st == LoggedIn(Store(map[], map[], map[]), user, 0)
  {
    hide Reachable;
    s := Initial();
    ReachInitial();
    ReachStep(s, Login(user, 0));
    s := Apply(s, Login(user, 0));
    ReachStep(s, Read(1, user));
    s := Apply(s, Read(1, user));
    ReachStep(s, Read(2, user));
    s := Apply(s, Read(2, user));
    ReachStep(s, RightToken(1));
    s := Apply(s, RightToken(1));
    ReachStep(s, RightToken(2));
    s := Apply(s, RightToken(2));
  }

  /** What is not once-only: two validations that have both read a session before
      either consumes it both succeed. The password still leaves once. */
  lemma TwoSuccessesOneSession(user: User) returns (s: State)
    ensures Reachable(s) && s.succeeded == [(1, 0), (2, 0)] && |s.released| == 1
  {
    hide Reachable;
    s := BothVerified(user);
    ReachStep(s, Finish(1));
    s := Apply(s, Finish(1));
    ReachStep(s, Finish(2));
    s := Apply(s, Finish(2));
  }

  lemma GoneStep(s: State, step: Step, sid: SessionId)
    requires Enabled(s, step) && sid in s.st.sessions && Gone(s, sid)
    ensures sid in Apply(s, step).st.sessions && Gone(Apply(s, step), sid)
  {}

  /** A session that is nobody's current one never becomes current again. */
  lemma {:induction false} GoneForGood(states: seq<State>, steps: seq<Step>, i: nat, k: nat, sid: SessionId)
    requires Run(states, steps) && i <= k < |states|
    requires sid in states[i].st.sessions && Gone(states[i], sid)
    ensures sid in states[k].st.sessions && Gone(states[k], sid)
    decreases k
  {
    hide Apply, Enabled, Gone;
    if i < k {
      GoneForGood(states, steps, i, k - 1, sid);
      GoneStep(states[k - 1], steps[k - 1], sid);
    }
  }

  /** Whether or not the session is still current then, it is gone once a
      validation has succeeded on it. */
  lemma GoneAfterSuccess(states: seq<State>, steps: seq<Step>, i: nat)
    requires Run(states, steps) && i < |steps| && steps[i].Finish?
    ensures
      var v := steps[i].v;
      && v in states[i].readBy && states[i].readBy[v] in states[i + 1].st.sessions
      && Gone(states[i + 1], states[i].readBy[v])
  {
    hide CountedAgainst, CountsAgree, ReleaseInv, TotpInv;
    RunInvariant(states, steps, i);
    assert GoodValidation(states[i], steps[i].v);
    assert states[i + 1] == Apply(states[i], steps[i]);
  }

  lemma ReadKept(s: State, step: Step, v: ValidationId)
    requires Enabled(s, step) && ProgressInv(s)
    ensures
      var s' := Apply(s, step);
      && (v in s.readBy ==> v in s'.readBy && s'.readBy[v] == s.readBy[v])
      && (v !in s.readBy && v in s'.readBy ==>
            step.Read? && step.v == v && s'.readBy[v] == s.st.tokensByUser[step.user])
  {}

  /** A validation that has not read the session by the time a first one succeeds
      on it never reads it. */
  lemma {:induction false} NoReadAfterSuccess(states: seq<State>, steps: seq<Step>, i: nat, k: nat, w: ValidationId)
    requires Run(states, steps) && i < k < |states| && steps[i].Finish? && w !in states[i].readBy
    ensures steps[i].v in states[i].readBy
    ensures w in states[k].readBy ==> states[k].readBy[w] != states[i].readBy[steps[i].v]
    decreases k
  {
    hide Apply, Enabled, StoreInv, ProgressInv, CountedWhereRead, CountsAgree, ReleaseInv, TotpInv;
    GoneAfterSuccess(states, steps, i);
    RunInvariant(states, steps, k - 1);
    ReadKept(states[k - 1], steps[k - 1], w);
    assert states[k] == Apply(states[k - 1], steps[k - 1]);
    if i < k - 1 {
      NoReadAfterSuccess(states, steps, i, k - 1, w);
      GoneForGood(states, steps, i + 1, k - 1, states[i].readBy[steps[i].v]);
      ReadsCurrent(states[k - 1], steps[k - 1], states[i].readBy[steps[i].v]);
    } else {
      FinishIsNoRead(states[i], steps[i], w);
    }
  }

  lemma ReadsCurrent(s: State, step: Step, sid: SessionId)
    requires Enabled(s, step) && Gone(s, sid)
    ensures step.Read? ==> step.user in s.st.tokensByUser && s.st.tokensByUser[step.user] != sid
  {}

  lemma FinishIsNoRead(s: State, step: Step, w: ValidationId)
    requires Enabled(s, step) && step.Finish?
    ensures w in Apply(s, step).readBy <==> w in s.readBy
  {}

  /** Of two successes on one session, the later validation had read the session
      before the earlier one succeeded. */
  lemma SecondSuccessHadRead(states: seq<State>, steps: seq<Step>, i: nat, k: nat)
    requires Run(states, steps) && i < k < |steps| && steps[i].Finish? && steps[k].Finish?
    ensures steps[i].v in states[i].readBy && steps[k].v in states[k].readBy
    ensures states[i].readBy[steps[i].v] == states[k].readBy[steps[k].v] ==> steps[k].v in states[i].readBy
  {
    hide Apply;
    GoneAfterSuccess(states, steps, i);
    GoneAfterSuccess(states, steps, k);
    if steps[k].v !in states[i].readBy {
      NoReadAfterSuccess(states, steps, i, k, steps[k].v);
    }
  }

  /** And that is enough: once one validation of a session is about to succeed,
      any other that has read the session and not failed can succeed after it. */
  lemma EarlierReaderCanSucceed(s: State, v: ValidationId, w: ValidationId)
    requires InPhase(s, v, Verified) && v != w && (InPhase(s, w, HasRead) || InPhase(s, w, Verified))
    requires s.inProgress[v].sid == s.inProgress[w].sid
    ensures
      var s1 := Apply(s, Finish(v));
      var s2 := if InPhase(s, w, HasRead) then Apply(s1, RightToken(w)) else s1;
      && Enabled(s2, Finish(w))
      && Apply(s2, Finish(w)).succeeded == s.succeeded + [(v, s.inProgress[v].sid), (w, s.inProgress[v].sid)]
  {}
}
