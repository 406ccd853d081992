/** The lifecycle of a service container when the operations of the service manager interleave.
    `require` holds the lock of the container, `stop` holds the mutex of the manager, and
    `check` holds nothing, so none of them excludes the others. Every access to the state and
    to the list of errors, and every call of the service, is one atomic step. */
module ServiceRaces {
  import opened PyDict
  import L = ServiceLifecycle

  datatype Op = Require | Check | Stop

  /** How an operation ends. */
  datatype Answer = Nothing | Running | ServiceDisabled | Raised(error: L.Error) | NotReady | TimedOut | IndexError

  datatype Pc =
    // require
    | PollStarting                // container.state == STARTING, polled until it is not
    | TestStopping                // container.state == STOPPING
    | PollStopped                 // polled until container.state == STOPPED
    | AcquireLock                 // with container.lock
    | TestDisabled                //   container.state == DISABLED
    | TestRunning                 //   container.state == RUNNING
    | TestError                   //   container.state == ERROR
    | TestAvailable               //   container.state == AVAILABLE
    | TestStopped                 //   or container.state == STOPPED
    | SetStarting                 //   self.state = STARTING
    | CallStart                   //   self.service.start(...)
    | RaiseLast                   //   raise container.errors[-1]
    // the rest of start, and check
    | CallCheck                   // self.service.check(...)
    | SetRunning                  // self.state = RUNNING
    | SetError(error: L.Error)    // self.state = ERROR
    | Record(error: L.Error)      // self.errors.append(e)
    | ReadForCheck                // self.get_state(name) in [RUNNING, ERROR]
    // stop
    | AcquireMutex                // with self._mutex
    | ReadForStop                 //   service_container.state in target_service_states
    | SetStopping                 //   self.state = STOPPING
    | CallStop                    //   self.service.stop()
    | SetStopped                  //   self.state = STOPPED
    | Over(answer: Answer)

  /** The last three fields say which operation was the first to start the service, and count
      the calls of `service.start` and the stops that reached STOPPED. */
  datatype State = State(
    ops: seq<Op>,
    pcs: seq<Pc>,
    state: L.ServiceState,
    errors: seq<L.Error>,
    lock: Option<nat>,
    mutex: Option<nat>,
    starter: Option<nat>,
    starts: nat,
    stops: nat)

  function FirstPc(op: Op): Pc {
    match op case Require => PollStarting case Check => ReadForCheck case Stop => AcquireMutex
  }

  function Initial(enabled: bool, ops: seq<Op>): State {
    State(ops, seq(|ops|, t requires 0 <= t < |ops| => FirstPc(ops[t])),
          if enabled then L.AVAILABLE else L.DISABLED, [], None, None, None, 0, 0)
  }

  // ---------------------------------------------------------------- steps

  /** What the outside does in a step: the service call raises, or a poll gives up. */
  datatype Choice = Choice(t: nat, error: Option<L.Error>, timeout: bool)

  predicate Enabled(s: State, c: Choice) {
    && c.t < |s.pcs| && c.t < |s.ops|
    && match s.pcs[c.t]
       case PollStarting => s.state != L.STARTING || c.timeout
       case PollStopped => s.state == L.STOPPED || c.timeout
       case AcquireLock => s.lock.None?
       case AcquireMutex => s.mutex.None?
       case Over(_) => false
       case _ => true
  }

  function Go(s: State, t: nat, pc: Pc): State
    requires t < |s.pcs|
  {
    s.(pcs := s.pcs[t := pc])
  }

  /** The end of an operation, which gives back what it holds. */
  function End(s: State, t: nat, answer: Answer): State
    requires t < |s.pcs|
  {
    Go(s.(lock := if s.lock == Some(t) then None else s.lock, mutex := if s.mutex == Some(t) then None else s.mutex),
       t, Over(answer))
  }

  function Step(s: State, c: Choice): State
    requires Enabled(s, c)
  {
    var t := c.t;
    match s.pcs[t]
    case PollStarting => if s.state == L.STARTING then End(s, t, TimedOut) else Go(s, t, TestStopping)
    case TestStopping => Go(s, t, if s.state == L.STOPPING then PollStopped else AcquireLock)
    case PollStopped => if s.state == L.STOPPED then Go(s, t, AcquireLock) else End(s, t, TimedOut)
    case AcquireLock => Go(s.(lock := Some(t)), t, TestDisabled)
    case TestDisabled => if s.state == L.DISABLED then End(s, t, ServiceDisabled) else Go(s, t, TestRunning)
    case TestRunning => if s.state == L.RUNNING then End(s, t, Running) else Go(s, t, TestError)
    case TestError => Go(s, t, if s.state == L.ERROR then RaiseLast else TestAvailable)
    case TestAvailable => Go(s, t, if s.state == L.AVAILABLE then SetStarting else TestStopped)
    case TestStopped => if s.state == L.STOPPED then Go(s, t, SetStarting) else End(s, t, NotReady)
    case SetStarting => Go(s.(state := L.STARTING, starter := if s.starter.None? then Some(t) else s.starter), t, CallStart)
    case CallStart => Go(s.(starts := s.starts + 1), t, if c.error.Some? then SetError(c.error.value) else CallCheck)
    case RaiseLast => End(s, t, if s.errors == [] then IndexError else Raised(s.errors[|s.errors| - 1]))
    case CallCheck => Go(s, t, if c.error.Some? then SetError(c.error.value) else SetRunning)
    case SetRunning => End(s.(state := L.RUNNING), t, if s.ops[t] == Require then Running else Nothing)
    case SetError(e) => Go(s.(state := L.ERROR), t, Record(e))
    case Record(e) =>
      var s' := s.(errors := s.errors + [e]);
      if s.ops[t] == Require then Go(s', t, RaiseLast) else End(s', t, Nothing)
    case ReadForCheck =>
      if s.state == L.RUNNING || s.state == L.ERROR then Go(s, t, CallCheck) else End(s, t, Nothing)
    case AcquireMutex => Go(s.(mutex := Some(t)), t, ReadForStop)
    case ReadForStop =>
      if s.state == L.STARTING || s.state == L.RUNNING then Go(s, t, SetStopping) else End(s, t, Nothing)
    case SetStopping => Go(s.(state := L.STOPPING), t, CallStop)
    case CallStop => Go(s, t, if c.error.Some? then SetError(c.error.value) else SetStopped)
    case SetStopped => End(s.(state := L.STOPPED, stops := s.stops + 1), t, Nothing)
  }

  function Turn(s: State, c: Choice): State {
    if Enabled(s, c) then Step(s, c) else s
  }

  /** Any interleaving of the operations. */
  function After(s: State, schedule: seq<Choice>): State
    decreases |schedule|
  {
    if schedule == [] then s else After(Turn(s, schedule[0]), schedule[1..])
  }

  // ---------------------------------------------------------------- invariant

  /** `require` between getting the lock and giving it back. */
  predicate UnderLock(pc: Pc) {
    pc.TestDisabled? || pc.TestRunning? || pc.TestError? || pc.TestAvailable? || pc.TestStopped? || pc.SetStarting?
    || pc.CallStart? || pc.RaiseLast?
  }

  /** The steps that `require` shares with the other operations. */
  predicate Shared(pc: Pc) {
    pc.CallCheck? || pc.SetRunning? || pc.SetError? || pc.Record?
  }

  predicate UnderMutex(pc: Pc) {
    pc.ReadForStop? || pc.SetStopping? || pc.CallStop? || pc.SetStopped?
  }

  predicate OfRequire(pc: Pc) {
    pc.PollStarting? || pc.TestStopping? || pc.PollStopped? || pc.AcquireLock? || UnderLock(pc)
  }

  predicate OfStop(pc: Pc) { pc.AcquireMutex? || UnderMutex(pc) }

  predicate Holds(op: Op, pc: Pc) {
    UnderLock(pc) || UnderMutex(pc) || (Shared(pc) && op != Check)
  }

  /** An operation that has seen the service started, or has started it itself. */
  predicate PastStart(op: Op, pc: Pc) {
    pc.CallStart? || Shared(pc) || pc.SetStopping? || pc.CallStop? || pc.SetStopped?
  }

  /** States from which a start is possible. */
  predicate Idle(state: L.ServiceState) { state == L.AVAILABLE || state == L.STOPPED }

  /** There are operations that do not take the lock of the container. */
  ghost predicate HasOthers(ops: seq<Op>) {
    exists v: nat :: v < |ops| && ops[v] != Require
  }

  /** There are two calls of `require` besides them. */
  ghost predicate CanCrash(ops: seq<Op>) {
    HasOthers(ops) && exists a: nat, b: nat :: a < |ops| && b < |ops| && a != b && ops[a] == ops[b] == Require
  }

  ghost predicate OpOk(s: State, t: nat)
    requires t < |s.pcs| && t < |s.ops|
  {
    var op, pc := s.ops[t], s.pcs[t];
    && (OfRequire(pc) ==> op == Require) && (OfStop(pc) ==> op == Stop) && (pc.ReadForCheck? ==> op == Check)
    && (op == Require && Holds(op, pc) ==> s.lock == Some(t))
    && (op == Stop && Holds(op, pc) ==> s.mutex == Some(t))
    && (pc.SetStarting? ==> s.starts <= s.stops)
    && (pc.CallStart? ==> s.starts <= s.stops && (Idle(s.state) ==> s.starts + 1 <= s.stops))
    && (PastStart(op, pc) ==> s.starter.Some?)
    && (BeforeStart(pc) ==> s.starter != Some(t))
    && (pc.RaiseLast? && s.errors == [] ==> HasOthers(s.ops) && s.starter.Some? && s.starter != Some(t))
    && (pc == Over(IndexError) ==> CanCrash(s.ops))
  }

  predicate BeforeStart(pc: Pc) {
    OfRequire(pc) && !pc.CallStart? && !pc.RaiseLast?
  }

  ghost predicate CountsOk(s: State) {
    s.starts <= s.stops + 1 && (Idle(s.state) ==> s.starts <= s.stops)
  }

  ghost predicate LocksOk(s: State)
    requires |s.pcs| == |s.ops|
  {
    && (s.lock.Some? ==> s.lock.value < |s.pcs| && s.ops[s.lock.value] == Require && Holds(Require, s.pcs[s.lock.value]))
    && (s.mutex.Some? ==> s.mutex.value < |s.pcs| && s.ops[s.mutex.value] == Stop && Holds(Stop, s.pcs[s.mutex.value]))
    && (s.starter.Some? ==> s.starter.value < |s.ops| && s.ops[s.starter.value] == Require)
    && (s.starter.None? ==> s.state == L.AVAILABLE || s.state == L.DISABLED)
  }

  /** An error without a record is about to be recorded. */
  ghost predicate ErrorsOk(s: State) {
    s.state == L.ERROR && s.errors == [] ==> exists t: nat :: t < |s.pcs| && s.pcs[t].Record?
  }

  ghost predicate Inv(s: State) {
    && |s.pcs| == |s.ops| && CountsOk(s) && LocksOk(s) && ErrorsOk(s)
    && forall t: nat | t < |s.pcs| :: OpOk(s, t)
  }

  lemma InitialInv(enabled: bool, ops: seq<Op>)
    ensures Inv(Initial(enabled, ops))
  {
  }

  lemma KeepsErrors(s: State, c: Choice)
    requires Enabled(s, c)
    requires Inv(s)
    ensures ErrorsOk(Step(s, c))
  {
    var s' := Step(s, c);
    if s'.state == L.ERROR && s'.errors == [] {
      if s.pcs[c.t].SetError? {
        assert s'.pcs[c.t].Record?;
      } else {
        var u: nat :| u < |s.pcs| && s.pcs[u].Record?;
        assert s'.pcs[u].Record?;
      }
    }
  }

  /** Whoever is about to raise the last error without one was not the first to start, and an
      operation without the lock has failed. */
  lemma SeesError(s: State, t: nat)
    requires Inv(s) && t < |s.pcs| && s.pcs[t].TestError? && s.state == L.ERROR && s.errors == []
    ensures HasOthers(s.ops) && s.starter.Some? && s.starter != Some(t)
  {
    var v: nat :| v < |s.pcs| && s.pcs[v].Record?;
    assert OpOk(s, t) && OpOk(s, v);
  }

  lemma Crashes(s: State, t: nat)
    requires Inv(s) && t < |s.pcs| && s.pcs[t].RaiseLast? && s.errors == []
    ensures CanCrash(s.ops)
  {
    assert OpOk(s, t);
    assert s.ops[t] == s.ops[s.starter.value] == Require;
  }

  lemma KeepsCounts(s: State, c: Choice)
    requires Enabled(s, c) && Inv(s)
    ensures CountsOk(Step(s, c))
  {
    assert OpOk(s, c.t);
  }

  /** What the step of one operation needs to know of itself and of another one. */
  ghost predicate Near(s: State, t: nat, u: nat) {
    && t < |s.pcs| && u < |s.pcs| && |s.pcs| == |s.ops| && CountsOk(s) && LocksOk(s) && OpOk(s, t) && OpOk(s, u)
  }

  ghost predicate Keeps(s: State, c: Choice, u: nat)
    requires Enabled(s, c)
  {
    var s' := Step(s, c);
    |s'.pcs| == |s.pcs| && s'.ops == s.ops && u < |s.pcs| && |s.pcs| == |s.ops| && OpOk(s', u)
  }

  lemma KeepsLocks(s: State, c: Choice)
    requires Enabled(s, c)
    requires Inv(s)
    ensures Keeps(s, c, c.t) ==> LocksOk(Step(s, c))
  {
    assert OpOk(s, c.t);
    var pc := s.pcs[c.t];
    if UnderLock(pc) {
      LocksUnderLock(s, c);
    } else if OfRequire(pc) || Shared(pc) {
      LocksOfRequire(s, c);
    } else {
      LocksElsewhere(s, c);
    }
  }

  lemma LocksUnderLock(s: State, c: Choice)
    requires Enabled(s, c) && UnderLock(s.pcs[c.t])
    requires Inv(s)
    ensures Keeps(s, c, c.t) ==> LocksOk(Step(s, c))
  {
    assert OpOk(s, c.t);
  }

  lemma LocksOfRequire(s: State, c: Choice)
    requires Enabled(s, c) && !UnderLock(s.pcs[c.t]) && (OfRequire(s.pcs[c.t]) || Shared(s.pcs[c.t]))
    requires Inv(s)
    ensures Keeps(s, c, c.t) ==> LocksOk(Step(s, c))
  {
    assert OpOk(s, c.t);
  }

  lemma LocksElsewhere(s: State, c: Choice)
    requires Enabled(s, c) && !OfRequire(s.pcs[c.t]) && !Shared(s.pcs[c.t])
    requires Inv(s)
    ensures Keeps(s, c, c.t) ==> LocksOk(Step(s, c))
  {
    assert OpOk(s, c.t);
  }

  /** The steps of `require` before it has the lock. */
  lemma EntryKeeps(s: State, c: Choice, u: nat)
    requires Enabled(s, c) && OfRequire(s.pcs[c.t]) && !UnderLock(s.pcs[c.t])
    requires Near(s, c.t, u)
    ensures Keeps(s, c, u)
  {
    assert u != c.t ==> Step(s, c).pcs[u] == s.pcs[u];
  }

  /** The tests under the lock. */
  lemma AnswersKeep(s: State, c: Choice, u: nat)
    requires Enabled(s, c) && (s.pcs[c.t].TestDisabled? || s.pcs[c.t].TestRunning?)
    requires Near(s, c.t, u)
    ensures Keeps(s, c, u)
  {
    assert u != c.t ==> Step(s, c).pcs[u] == s.pcs[u];
  }

  lemma TestsKeep(s: State, c: Choice, u: nat)
    requires Enabled(s, c) && (s.pcs[c.t].TestAvailable? || s.pcs[c.t].TestStopped?)
    requires Near(s, c.t, u)
    ensures Keeps(s, c, u)
  {
    assert u != c.t ==> Step(s, c).pcs[u] == s.pcs[u];
  }

  lemma ErrorsKeep(s: State, c: Choice, u: nat)
    requires Enabled(s, c) && (s.pcs[c.t].TestError? || s.pcs[c.t].RaiseLast?)
    requires Inv(s) && u < |s.pcs|
    ensures Keeps(s, c, u)
  {
    assert OpOk(s, c.t) && OpOk(s, u) && (u != c.t ==> Step(s, c).pcs[u] == s.pcs[u]);
    if s.errors == [] && s.pcs[c.t].RaiseLast? {
      Crashes(s, c.t);
    } else if s.errors == [] && s.state == L.ERROR {
      SeesError(s, c.t);
    }
  }

  lemma StartKeeps(s: State, c: Choice, u: nat)
    requires Enabled(s, c) && (s.pcs[c.t].SetStarting? || s.pcs[c.t].CallStart?)
    requires Near(s, c.t, u)
    ensures Keeps(s, c, u)
  {
    assert u != c.t ==> Step(s, c).pcs[u] == s.pcs[u];
  }

  /** The check, and the record of an error. */
  lemma SharedKeeps(s: State, c: Choice, u: nat)
    requires Enabled(s, c) && Shared(s.pcs[c.t])
    requires Near(s, c.t, u)
    ensures Keeps(s, c, u)
  {
    assert u != c.t ==> Step(s, c).pcs[u] == s.pcs[u];
  }

  /** The tests of `stop` and `check`. */
  lemma ReadsKeep(s: State, c: Choice, u: nat)
    requires Enabled(s, c) && (s.pcs[c.t].ReadForStop? || s.pcs[c.t].ReadForCheck?)
    requires Near(s, c.t, u)
    ensures Keeps(s, c, u)
  {
    assert u != c.t ==> Step(s, c).pcs[u] == s.pcs[u];
  }

  lemma MutexKeeps(s: State, c: Choice, u: nat)
    requires Enabled(s, c) && s.pcs[c.t].AcquireMutex?
    requires Near(s, c.t, u)
    ensures Keeps(s, c, u)
  {
    assert u != c.t ==> Step(s, c).pcs[u] == s.pcs[u];
  }

  lemma StopKeeps(s: State, c: Choice, u: nat)
    requires Enabled(s, c) && (s.pcs[c.t].SetStopping? || s.pcs[c.t].CallStop? || s.pcs[c.t].SetStopped?)
    requires Near(s, c.t, u)
    ensures Keeps(s, c, u)
  {
    assert u != c.t ==> Step(s, c).pcs[u] == s.pcs[u];
  }

  lemma StepKeeps(s: State, c: Choice, u: nat)
    requires Enabled(s, c)
    requires Inv(s) && u < |s.pcs|
    ensures Keeps(s, c, u)
  {
    var pc := s.pcs[c.t];
    assert Near(s, c.t, u);
    if pc.SetStarting? || pc.CallStart? {
      StartKeeps(s, c, u);
    } else if pc.TestError? || pc.RaiseLast? {
      ErrorsKeep(s, c, u);
    } else if pc.TestDisabled? || pc.TestRunning? {
      AnswersKeep(s, c, u);
    } else if UnderLock(pc) {
      TestsKeep(s, c, u);
    } else if OfRequire(pc) {
      EntryKeeps(s, c, u);
    } else if Shared(pc) {
      SharedKeeps(s, c, u);
    } else if pc.AcquireMutex? {
      MutexKeeps(s, c, u);
    } else if pc.ReadForStop? || pc.ReadForCheck? {
      ReadsKeep(s, c, u);
    } else {
      StopKeeps(s, c, u);
    }
  }

  lemma TurnInv(s: State, c: Choice)
    requires Inv(s)
    ensures Inv(Turn(s, c)) && Turn(s, c).ops == s.ops
  {
    if Enabled(s, c) {
      KeepsCounts(s, c);
      KeepsErrors(s, c);
      StepKeeps(s, c, c.t);
      KeepsLocks(s, c);
      forall u: nat | u < |s.pcs| ensures OpOk(Step(s, c), u) { StepKeeps(s, c, u); }
    }
  }

  lemma {:induction false} AlwaysInv(s: State, schedule: seq<Choice>)
    requires Inv(s)
    ensures Inv(After(s, schedule)) && After(s, schedule).ops == s.ops
    decreases |schedule|
  {
    if schedule != [] {
      TurnInv(s, schedule[0]);
      AlwaysInv(Turn(s, schedule[0]), schedule[1..]);
    }
  }

  // ---------------------------------------------------------------- what always holds

  /** In every interleaving there is at most one more start than there are completed stops, and
      an error state has a record, or the operation that failed is about to write it. */
  lemma LifecycleIsSound(enabled: bool, ops: seq<Op>, schedule: seq<Choice>)
    ensures var s := After(Initial(enabled, ops), schedule);
      && s.starts <= s.stops + 1
      && (s.state == L.ERROR ==> s.errors != [] || exists t: nat :: t < |s.pcs| && s.pcs[t].Record?)
  {
    InitialInv(enabled, ops);
    AlwaysInv(Initial(enabled, ops), schedule);
  }

  /** Why an operation may end with an answer. */
  predicate Because(s: State, c: Choice, answer: Answer, s': State)
    requires c.t < |s.pcs|
  {
    match answer
    case TimedOut => c.timeout && if s.pcs[c.t].PollStarting? then s.state == L.STARTING else s.state != L.STOPPED
    case ServiceDisabled => s.state == L.DISABLED
    case Running => s'.state == L.RUNNING
    case Raised(e) => s.errors != [] && e == s.errors[|s.errors| - 1]
    case IndexError => s.errors == []
    case NotReady => s.state != L.STOPPED
    case Nothing => true
  }

  /** What a step of an operation can lead to: an answer for its reason, and states and errors
      as the calls of the service end. */
  lemma StepIsReal(s: State, c: Choice)
    requires Enabled(s, c) && c.t < |s.pcs|
    ensures var s' := Step(s, c);
      |s'.pcs| == |s.pcs| && var pc, pc' := s.pcs[c.t], s'.pcs[c.t];
      && (pc'.Over? ==> Because(s, c, pc'.answer, s'))
      && (pc'.SetError? ==> (pc.CallStart? || pc.CallCheck? || pc.CallStop?) && c.error == Some(pc'.error))
      && (pc'.SetRunning? ==> pc.CallCheck? && c.error == None)
      && (pc'.SetStopped? ==> pc.CallStop? && c.error == None)
      && (pc.PollStarting? && s.state != L.STARTING ==> pc' == TestStopping)
      && (pc.TestStopping? ==> pc' == if s.state == L.STOPPING then PollStopped else AcquireLock)
      && (pc.PollStopped? && s.state == L.STOPPED ==> pc' == AcquireLock)
      && (s'.state == s.state || pc.SetStarting? || pc.SetRunning? || pc.SetError? || pc.SetStopping? || pc.SetStopped?)
      && (s'.errors == if pc.Record? then s.errors + [pc.error] else s.errors)
  {
  }

  ghost predicate AnswersFit(s: State) {
    |s.pcs| == |s.ops| && forall t: nat | t < |s.pcs| && s.pcs[t].Over? :: s.pcs[t].answer == Nothing <==> s.ops[t] != Require
  }

  lemma NewAnswerFits(s: State, c: Choice)
    requires Enabled(s, c) && OpOk(s, c.t)
    ensures var pc := Step(s, c).pcs[c.t]; pc.Over? ==> (pc.answer == Nothing <==> s.ops[c.t] != Require)
  {
  }

  lemma OthersWait(s: State, c: Choice)
    requires Enabled(s, c)
    ensures var s' := Step(s, c); s'.pcs == s.pcs[c.t := s'.pcs[c.t]] && s'.ops == s.ops
  {
  }

  lemma AnswersStillFit(s: State, c: Choice)
    requires Inv(s) && AnswersFit(s)
    ensures AnswersFit(Turn(s, c))
  {
    if Enabled(s, c) {
      assert OpOk(s, c.t);
      NewAnswerFits(s, c);
      OthersWait(s, c);
    }
  }

  lemma {:induction false} AnswersAlwaysFit(s: State, schedule: seq<Choice>)
    requires Inv(s) && AnswersFit(s)
    ensures AnswersFit(After(s, schedule)) && After(s, schedule).ops == s.ops
    decreases |schedule|
  {
    if schedule != [] {
      TurnInv(s, schedule[0]);
      AnswersStillFit(s, schedule[0]);
      AnswersAlwaysFit(Turn(s, schedule[0]), schedule[1..]);
    }
  }

  /** In every interleaving: a `require` that is over has answered, the other operations are
      silent, whatever they ran into. */
  lemma OnlyRequireAnswers(enabled: bool, ops: seq<Op>, schedule: seq<Choice>)
    ensures var s := After(Initial(enabled, ops), schedule);
      |s.pcs| == |ops|
      && forall t: nat | t < |ops| && s.pcs[t].Over? :: s.pcs[t].answer == Nothing <==> ops[t] != Require
  {
    InitialInv(enabled, ops);
    AnswersAlwaysFit(Initial(enabled, ops), schedule);
  }

  /** The operations on a disabled service do not get beyond their first tests. */
  ghost predicate Off(s: State) {
    && s.state == L.DISABLED && s.errors == [] && s.starts == 0 && s.stops == 0
    && forall t: nat | t < |s.pcs| :: OffPc(s.pcs[t])
  }

  predicate OffPc(pc: Pc) {
    pc.PollStarting? || pc.TestStopping? || pc.AcquireLock? || pc.TestDisabled? || pc.ReadForCheck? || pc.AcquireMutex?
    || pc.ReadForStop? || pc == Over(Nothing) || pc == Over(ServiceDisabled)
  }

  lemma StaysOff(s: State, c: Choice)
    requires Off(s)
    ensures Off(Turn(s, c))
  {
  }

  lemma {:induction false} AlwaysOff(s: State, schedule: seq<Choice>)
    requires Off(s)
    ensures Off(After(s, schedule))
    decreases |schedule|
  {
    if schedule != [] {
      StaysOff(s, schedule[0]);
      AlwaysOff(Turn(s, schedule[0]), schedule[1..]);
    }
  }

  /** A disabled service is never enabled, started, stopped or in error. */
  lemma DisabledIsLeftAlone(ops: seq<Op>, schedule: seq<Choice>)
    ensures var s := After(Initial(false, ops), schedule);
      && s.state == L.DISABLED && s.errors == [] && s.starts == 0 && s.stops == 0
      && forall t: nat | t < |s.pcs| && s.pcs[t].Over? :: s.pcs[t].answer == Nothing || s.pcs[t].answer == ServiceDisabled
  {
    AlwaysOff(Initial(false, ops), schedule);
  }

  /** While an operation is not over, some operation can go on. */
  lemma NoDeadlock(enabled: bool, ops: seq<Op>, schedule: seq<Choice>, t: nat)
    requires t < |ops|
    ensures var s := After(Initial(enabled, ops), schedule);
      |s.pcs| == |ops| && (!s.pcs[t].Over? ==> exists c :: Enabled(s, c))
  {
    InitialInv(enabled, ops);
    AlwaysInv(Initial(enabled, ops), schedule);
    var s := After(Initial(enabled, ops), schedule);
    if !s.pcs[t].Over? {
      var u := if s.pcs[t].AcquireLock? && s.lock.Some? then s.lock.value
               else if s.pcs[t].AcquireMutex? && s.mutex.Some? then s.mutex.value else t;
      assert Enabled(s, Choice(u, None, true));
    }
  }

  // ---------------------------------------------------------------- runs of one operation

  function Solo(s: State, c: Choice, k: nat): State
    decreases k
  {
    if k == 0 then s else Solo(Turn(s, c), c, k - 1)
  }

  function Repeat(c: Choice, k: nat): seq<Choice> {
    if k == 0 then [] else [c] + Repeat(c, k - 1)
  }

  lemma {:induction false} AfterRepeat(s: State, c: Choice, k: nat, rest: seq<Choice>)
    ensures After(s, Repeat(c, k) + rest) == After(Solo(s, c, k), rest)
    decreases k
  {
    if k == 0 {
      assert Repeat(c, k) + rest == rest;
    } else {
      assert (Repeat(c, k) + rest)[0] == c && (Repeat(c, k) + rest)[1..] == Repeat(c, k - 1) + rest;
      AfterRepeat(Turn(s, c), c, k - 1, rest);
    }
  }

  /** Three runs of one operation each. */
  function Runs(c1: Choice, k1: nat, c2: Choice, k2: nat, c3: Choice, k3: nat): seq<Choice> {
    Repeat(c1, k1) + (Repeat(c2, k2) + (Repeat(c3, k3) + []))
  }

  lemma AfterRuns(s: State, c1: Choice, k1: nat, c2: Choice, k2: nat, c3: Choice, k3: nat)
    ensures After(s, Runs(c1, k1, c2, k2, c3, k3)) == Solo(Solo(Solo(s, c1, k1), c2, k2), c3, k3)
  {
    AfterRepeat(s, c1, k1, Repeat(c2, k2) + (Repeat(c3, k3) + []));
    AfterRepeat(Solo(s, c1, k1), c2, k2, Repeat(c3, k3) + []);
    AfterRepeat(Solo(Solo(s, c1, k1), c2, k2), c3, k3, []);
  }

  lemma {:induction false} SoloMore(s: State, c: Choice, j: nat, k: nat)
    ensures Solo(s, c, j + k) == Solo(Solo(s, c, j), c, k)
    decreases j
  {
    if j > 0 { SoloMore(Turn(s, c), c, j - 1, k); }
  }

  lemma One(s: State, c: Choice, s1: State)
    requires Turn(s, c) == s1
    ensures Solo(s, c, 1) == s1
  {
    assert Solo(s1, c, 0) == s1;
  }

  lemma Two(s: State, c: Choice, s1: State, s2: State)
    requires Turn(s, c) == s1 && Turn(s1, c) == s2
    ensures Solo(s, c, 2) == s2
  {
    One(s1, c, s2);
  }

  lemma Three(s: State, c: Choice, s1: State, s2: State, s3: State)
    requires Turn(s, c) == s1 && Turn(s1, c) == s2 && Turn(s2, c) == s3
    ensures Solo(s, c, 3) == s3
  {
    Two(s1, c, s2, s3);
  }

  predicate Fits(s: State, t: nat) { t < |s.pcs| && t < |s.ops| }

  /** `require` gets the lock. */
  lemma RequireEnters(s: State, t: nat)
    requires Fits(s, t) && s.pcs[t].PollStarting? && s.lock.None? && s.state != L.STARTING && s.state != L.STOPPING
    ensures Solo(s, Choice(t, None, false), 3) == Go(s.(lock := Some(t)), t, TestDisabled)
  {
    Three(s, Choice(t, None, false), Go(s, t, TestStopping), Go(s, t, AcquireLock), Go(s.(lock := Some(t)), t, TestDisabled));
  }

  /** It finds the service enabled and not running. */
  lemma RequireTests(s: State, t: nat)
    requires Fits(s, t) && s.pcs[t].TestDisabled? && (s.state == L.AVAILABLE || s.state == L.ERROR)
    ensures Solo(s, Choice(t, None, false), 3) == Go(s, t, if s.state == L.ERROR then RaiseLast else TestAvailable)
  {
    Three(s, Choice(t, None, false), Go(s, t, TestRunning), Go(s, t, TestError),
          Go(s, t, if s.state == L.ERROR then RaiseLast else TestAvailable));
  }

  /** It calls the start of the service. */
  lemma RequireCalls(s: State, t: nat)
    requires Fits(s, t) && s.pcs[t].TestAvailable? && s.state == L.AVAILABLE && s.starter.None?
    ensures Solo(s, Choice(t, None, false), 3)
         == Go(s.(state := L.STARTING, starter := Some(t), starts := s.starts + 1), t, CallCheck)
  {
    Three(s, Choice(t, None, false), Go(s, t, SetStarting), Go(s.(state := L.STARTING, starter := Some(t)), t, CallStart),
          Go(s.(state := L.STARTING, starter := Some(t), starts := s.starts + 1), t, CallCheck));
  }

  /** `require` on a service that was never started, up to the check that follows the start. */
  lemma RequireStarts(s: State, t: nat)
    requires Fits(s, t) && s.pcs[t].PollStarting? && s.state == L.AVAILABLE && s.lock.None? && s.starter.None?
    ensures Solo(s, Choice(t, None, false), 9)
         == Go(s.(state := L.STARTING, lock := Some(t), starter := Some(t), starts := s.starts + 1), t, CallCheck)
  {
    var c, s3 := Choice(t, None, false), Go(s.(lock := Some(t)), t, TestDisabled);
    RequireEnters(s, t);
    RequireTests(s3, t);
    GoAgain(s.(lock := Some(t)), t, TestDisabled, TestAvailable);
    RequireCalls(Go(s.(lock := Some(t)), t, TestAvailable), t);
    GoAgain(s.(state := L.STARTING, lock := Some(t), starter := Some(t), starts := s.starts + 1), t, TestAvailable, CallCheck);
    SoloMore(s, c, 3, 6);
    SoloMore(s3, c, 3, 3);
  }

  /** The check succeeds: the service counts as running, whatever its state was. */
  lemma RequireEnds(s: State, t: nat)
    requires Fits(s, t) && s.pcs[t].CallCheck? && s.ops[t] == Require && s.lock == Some(t) && s.mutex.None?
    ensures Solo(s, Choice(t, None, false), 2) == Go(s.(state := L.RUNNING, lock := None), t, Over(Running))
  {
    GoAgain(s.(state := L.RUNNING, lock := None), t, SetRunning, Over(Running));
    Two(s, Choice(t, None, false), Go(s, t, SetRunning), Go(s.(state := L.RUNNING, lock := None), t, Over(Running)));
  }

  /** `require` starts an available service. */
  lemma RequireRuns(s: State, t: nat)
    requires Fits(s, t) && s.pcs[t].PollStarting? && s.ops[t] == Require && s.state == L.AVAILABLE
    requires s.lock.None? && s.starter.None? && s.mutex.None?
    ensures Solo(s, Choice(t, None, false), 11)
         == Go(s.(state := L.RUNNING, starter := Some(t), starts := s.starts + 1), t, Over(Running))
  {
    var s9 := Go(s.(state := L.STARTING, lock := Some(t), starter := Some(t), starts := s.starts + 1), t, CallCheck);
    RequireStarts(s, t);
    RequireEnds(s9, t);
    SoloMore(s, Choice(t, None, false), 9, 2);
    GoAgain(s.(state := L.RUNNING, starter := Some(t), starts := s.starts + 1), t, CallCheck, Over(Running));
  }

  /** `require` raises the last error of a service that failed. */
  lemma RequireRaises(s: State, t: nat)
    requires Fits(s, t) && s.pcs[t].PollStarting? && s.lock.None? && s.state == L.ERROR
    ensures var s' := Solo(s, Choice(t, None, false), 7);
      |s'.pcs| == |s.pcs| && s'.pcs[t] == Over(if s.errors == [] then IndexError else Raised(s.errors[|s.errors| - 1]))
  {
    var c, s3 := Choice(t, None, false), Go(s.(lock := Some(t)), t, TestDisabled);
    RequireEnters(s, t);
    RequireTests(s3, t);
    SoloMore(s, c, 3, 4);
    SoloMore(s3, c, 3, 1);
    One(Go(s3, t, RaiseLast), c, Turn(Go(s3, t, RaiseLast), c));
  }

  lemma GoAgain(s: State, t: nat, first: Pc, second: Pc)
    requires Fits(s, t)
    ensures Go(Go(s, t, first), t, second) == Go(s, t, second)
  {
    assert s.pcs[t := first][t := second] == s.pcs[t := second];
  }

  /** A call of the service fails, up to the record of the error. */
  lemma Fails(s: State, t: nat, from: Pc, e: L.Error)
    requires Fits(s, t) && (from.CallCheck? || from.CallStop?)
    ensures Solo(Go(s, t, from), Choice(t, Some(e), false), 2) == Go(s.(state := L.ERROR), t, Record(e))
  {
    GoAgain(s, t, from, SetError(e));
    GoAgain(s.(state := L.ERROR), t, SetError(e), Record(e));
    Two(Go(s, t, from), Choice(t, Some(e), false), Go(s, t, SetError(e)), Go(s.(state := L.ERROR), t, Record(e)));
  }

  lemma CheckFails(s: State, t: nat, e: L.Error)
    requires Fits(s, t) && s.pcs[t].ReadForCheck? && s.state == L.RUNNING
    ensures Solo(s, Choice(t, Some(e), false), 3) == Go(s.(state := L.ERROR), t, Record(e))
  {
    var c := Choice(t, Some(e), false);
    One(s, c, Go(s, t, CallCheck));
    Fails(s, t, CallCheck, e);
    SoloMore(s, c, 1, 2);
  }

  /** `stop` on an active service, up to the call of the service. */
  lemma StopCalls(s: State, t: nat, error: Option<L.Error>)
    requires Fits(s, t) && s.pcs[t].AcquireMutex? && (s.state == L.RUNNING || s.state == L.STARTING) && s.mutex.None?
    ensures Solo(s, Choice(t, error, false), 3) == Go(s.(state := L.STOPPING, mutex := Some(t)), t, CallStop)
  {
    var held := s.(mutex := Some(t));
    GoAgain(held, t, ReadForStop, SetStopping);
    GoAgain(held.(state := L.STOPPING), t, SetStopping, CallStop);
    Three(s, Choice(t, error, false), Go(held, t, ReadForStop), Go(held, t, SetStopping),
          Go(held.(state := L.STOPPING), t, CallStop));
  }

  lemma StopFails(s: State, t: nat, e: L.Error)
    requires Fits(s, t) && s.pcs[t].AcquireMutex? && s.state == L.RUNNING && s.mutex.None?
    ensures Solo(s, Choice(t, Some(e), false), 5) == Go(s.(state := L.ERROR, mutex := Some(t)), t, Record(e))
  {
    StopCalls(s, t, Some(e));
    Fails(s.(state := L.STOPPING, mutex := Some(t)), t, CallStop, e);
    SoloMore(s, Choice(t, Some(e), false), 3, 2);
  }

  lemma StopEnds(s: State, t: nat)
    requires Fits(s, t) && s.lock != Some(t)
    ensures Solo(Go(s.(mutex := Some(t)), t, CallStop), Choice(t, None, false), 2)
         == Go(s.(state := L.STOPPED, mutex := None, stops := s.stops + 1), t, Over(Nothing))
  {
    var held := s.(mutex := Some(t));
    GoAgain(held, t, CallStop, SetStopped);
    GoAgain(s.(state := L.STOPPED, mutex := None, stops := s.stops + 1), t, SetStopped, Over(Nothing));
    Two(Go(held, t, CallStop), Choice(t, None, false), Go(held, t, SetStopped),
        Go(s.(state := L.STOPPED, mutex := None, stops := s.stops + 1), t, Over(Nothing)));
  }

  lemma StopRuns(s: State, t: nat)
    requires Fits(s, t) && s.pcs[t].AcquireMutex? && s.state == L.STARTING && s.mutex.None? && s.lock != Some(t)
    ensures Solo(s, Choice(t, None, false), 5) == Go(s.(state := L.STOPPED, stops := s.stops + 1), t, Over(Nothing))
  {
    StopCalls(s, t, None);
    StopEnds(s.(state := L.STOPPING), t);
    SoloMore(s, Choice(t, None, false), 3, 2);
  }

  // ---------------------------------------------------------------- the missing record

  /** A call of `check` or `stop` fails, up to the record of the error. */
  function StepsToFail(op: Op): nat { if op == Check then 3 else 5 }

  lemma OtherFails(s: State, t: nat, e: L.Error)
    requires Fits(s, t) && s.ops[t] != Require && s.pcs[t] == FirstPc(s.ops[t]) && s.state == L.RUNNING && s.mutex.None?
    ensures Solo(s, Choice(t, Some(e), false), StepsToFail(s.ops[t]))
         == Go(s.(state := L.ERROR, mutex := if s.ops[t] == Stop then Some(t) else None), t, Record(e))
  {
    if s.ops[t] == Check { CheckFails(s, t, e); } else { StopFails(s, t, e); }
  }

  /** One `require` starts the service, another operation fails, and a second `require` comes
      between its change of the state and its record of the error. */
  function CrashingSchedule(ops: seq<Op>, a: nat, v: nat, b: nat): seq<Choice>
    requires v < |ops|
  {
    Runs(Choice(a, None, false), 11, Choice(v, Some("failed"), false), StepsToFail(ops[v]), Choice(b, None, false), 7)
  }

  lemma ScheduleCrashes(ops: seq<Op>, a: nat, v: nat, b: nat)
    requires a < |ops| && b < |ops| && v < |ops| && a != b
    requires ops[a] == ops[b] == Require && ops[v] != Require
    ensures Ends(After(Initial(true, ops), CrashingSchedule(ops, a, v, b)), b, IndexError)
  {
    var s, k := Initial(true, ops), StepsToFail(ops[v]);
    var ca, cv, cb := Choice(a, None, false), Choice(v, Some("failed"), false), Choice(b, None, false);
    RequireRuns(s, a);
    var s1 := Solo(s, ca, 11);
    OtherFails(s1, v, "failed");
    RequireRaises(Solo(s1, cv, k), b);
    AfterRuns(s, ca, 11, cv, k, cb, 7);
  }

  lemma CrashNeeds(enabled: bool, ops: seq<Op>, schedule: seq<Choice>, t: nat)
    requires Ends(After(Initial(enabled, ops), schedule), t, IndexError)
    ensures enabled && CanCrash(ops)
  {
    InitialInv(enabled, ops);
    AlwaysInv(Initial(enabled, ops), schedule);
    assert OpOk(After(Initial(enabled, ops), schedule), t);
    if !enabled { DisabledIsLeftAlone(ops, schedule); }
  }

  ghost predicate MayCrash(enabled: bool, ops: seq<Op>) {
    exists schedule, t: nat :: Ends(After(Initial(enabled, ops), schedule), t, IndexError)
  }

  /** Some `require` can end with an IndexError instead of the error of the service, in some
      interleaving, if and only if the service is enabled, `require` is called at least twice,
      and `check` or `stop` is called as well. */
  lemma IndexErrorExactly(enabled: bool, ops: seq<Op>)
    ensures MayCrash(enabled, ops) <==> enabled && CanCrash(ops)
  {
    if MayCrash(enabled, ops) {
      var schedule, t: nat :| Ends(After(Initial(enabled, ops), schedule), t, IndexError);
      CrashNeeds(enabled, ops, schedule, t);
    }
    if enabled && CanCrash(ops) {
      var v: nat :| v < |ops| && ops[v] != Require;
      var a: nat, b: nat :| a < |ops| && b < |ops| && a != b && ops[a] == ops[b] == Require;
      ScheduleCrashes(ops, a, v, b);
    }
  }

  predicate Ends(s: State, t: nat, answer: Answer) {
    t < |s.pcs| && s.pcs[t] == Over(answer)
  }

  // ---------------------------------------------------------------- the lost stop

  /** The service counts as running although each of its starts was stopped. */
  predicate RunsThoughStopped(s: State) {
    s.state == L.RUNNING && s.starts <= s.stops
  }

  /** Without a call of `stop`, whatever follows a start knows of it. */
  ghost predicate NeverStopped(s: State) {
    && |s.pcs| == |s.ops| && (forall t: nat | t < |s.ops| :: s.ops[t] != Stop) && s.stops == 0
    && (s.state == L.RUNNING || s.state == L.ERROR ==> s.starts > 0)
    && forall t: nat | t < |s.pcs| :: Unstopped(s.pcs[t], s.starts)
  }

  predicate Unstopped(pc: Pc, starts: nat) {
    !OfStop(pc) && (Shared(pc) ==> starts > 0)
  }

  lemma StepStaysUnstopped(s: State, c: Choice)
    requires Enabled(s, c) && Unstopped(s.pcs[c.t], s.starts)
    requires s.state == L.RUNNING || s.state == L.ERROR ==> s.starts > 0
    ensures var s' := Step(s, c);
      && |s'.pcs| == |s.pcs| && s'.pcs == s.pcs[c.t := s'.pcs[c.t]] && Unstopped(s'.pcs[c.t], s'.starts)
      && s'.ops == s.ops && s'.stops == s.stops && s'.starts >= s.starts
      && (s'.state == L.RUNNING || s'.state == L.ERROR ==> s'.starts > 0)
  {
  }

  lemma StaysUnstopped(s: State, c: Choice)
    requires NeverStopped(s)
    ensures NeverStopped(Turn(s, c))
  {
    if Enabled(s, c) {
      StepStaysUnstopped(s, c);
    }
  }

  lemma {:induction false} AlwaysUnstopped(s: State, schedule: seq<Choice>)
    requires NeverStopped(s)
    ensures NeverStopped(After(s, schedule))
    decreases |schedule|
  {
    if schedule != [] {
      StaysUnstopped(s, schedule[0]);
      AlwaysUnstopped(Turn(s, schedule[0]), schedule[1..]);
    }
  }

  /** `stop` runs between the start of the service and the check that follows it. */
  function LosingSchedule(a: nat, v: nat): seq<Choice> {
    Runs(Choice(a, None, false), 9, Choice(v, None, false), 5, Choice(a, None, false), 2)
  }

  lemma ScheduleLoses(ops: seq<Op>, a: nat, v: nat)
    requires a < |ops| && v < |ops| && ops[a] == Require && ops[v] == Stop
    ensures var s := After(Initial(true, ops), LosingSchedule(a, v));
      RunsThoughStopped(s) && s.starts == 1 && Ends(s, a, Running) && Ends(s, v, Nothing)
  {
    var s, ca, cv := Initial(true, ops), Choice(a, None, false), Choice(v, None, false);
    RequireStarts(s, a);
    var s1 := Solo(s, ca, 9);
    StopRuns(s1, v);
    var s2 := Solo(s1, cv, 5);
    RequireEnds(s2, a);
    AfterRuns(s, ca, 9, cv, 5, ca, 2);
  }

  /** A service can count as running in some interleaving, although each of its starts was
      stopped, if and only if it is enabled and both `require` and `stop` are called. */
  lemma StopIsLostExactly(enabled: bool, ops: seq<Op>)
    ensures (exists schedule :: RunsThoughStopped(After(Initial(enabled, ops), schedule)))
      <==> enabled && Require in ops && Stop in ops
  {
    forall schedule | RunsThoughStopped(After(Initial(enabled, ops), schedule))
      ensures enabled && Require in ops && Stop in ops
    {
      InitialInv(enabled, ops);
      AlwaysInv(Initial(enabled, ops), schedule);
      if !enabled { DisabledIsLeftAlone(ops, schedule); }
      if Stop !in ops { AlwaysUnstopped(Initial(enabled, ops), schedule); }
    }
    if enabled && Require in ops && Stop in ops {
      var a: nat :| a < |ops| && ops[a] == Require;
      var v: nat :| v < |ops| && ops[v] == Stop;
      ScheduleLoses(ops, a, v);
      assert RunsThoughStopped(After(Initial(enabled, ops), LosingSchedule(a, v)));
    }
  }
}
