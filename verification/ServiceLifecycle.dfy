/** The lifecycle of a service container under the operations of the service manager, with
    each container method as one atomic step. */
module ServiceLifecycle {
  import opened PyDict

  datatype ServiceState = UNKNOWN | AVAILABLE | DISABLED | STARTING | RUNNING | STOPPING | STOPPED | ERROR

  type Error = string

  /** How a call of `require` ends. */
  datatype Answer = Running | ServiceDisabled | Raised(error: Error) | NotReady

  /** What the service itself does: nothing, or raise an error. */
  type Outcome = Option<Error>

  /** A container: the last two fields count the calls of `service.start` and the stops that
      reached STOPPED. */
  datatype Snapshot = Snapshot(state: ServiceState, errors: seq<Error>, starts: nat, stops: nat)

  // ---------------------------------------------------------------- the steps

  function Fail(s: Snapshot, error: Error): Snapshot {
    s.(state := ERROR, errors := s.errors + [error])
  }

  function Checked(s: Snapshot, check: Outcome): Snapshot {
    if check.Some? then Fail(s, check.value) else s.(state := RUNNING)
  }

  function Started(s: Snapshot, start: Outcome, check: Outcome): Snapshot {
    var s' := s.(starts := s.starts + 1);
    if start.Some? then Fail(s', start.value) else Checked(s', check)
  }

  function Stopped(s: Snapshot, stop: Outcome): Snapshot {
    if stop.Some? then Fail(s, stop.value) else s.(state := STOPPED, stops := s.stops + 1)
  }

  datatype Operation =
    | Require(start: Outcome, check: Outcome)  // ServiceManager.require
    | Check(check: Outcome)                    // ServiceManager.check
    | Stop(stop: Outcome)                      // ServicePluginManager._stop_services

  function Apply(s: Snapshot, op: Operation): Snapshot {
    match op
    case Require(start, check) => if s.state == AVAILABLE || s.state == STOPPED then Started(s, start, check) else s
    case Check(check) => if s.state == RUNNING || s.state == ERROR then Checked(s, check) else s
    case Stop(stop) => if s.state == STARTING || s.state == RUNNING then Stopped(s, stop) else s
  }

  /** A fresh container as `add_service` makes it, after a run of operations. */
  function Run(enabled: bool, ops: seq<Operation>): Snapshot {
    if ops == [] then Snapshot(if enabled then AVAILABLE else DISABLED, [], 0, 0)
    else Apply(Run(enabled, ops[..|ops| - 1]), ops[|ops| - 1])
  }

  // ---------------------------------------------------------------- what each operation does

  /** A call failed: the state says so and the error is the last one. */
  predicate Failed(s: Snapshot, s': Snapshot, error: Error) {
    s'.state == ERROR && s'.errors == s.errors + [error]
  }

  /** `stop` is for services that are starting or running; it ends in STOPPED, or in ERROR. */
  predicate StopDid(s: Snapshot, stop: Outcome, s': Snapshot) {
    if s.state == STARTING || s.state == RUNNING then
      match stop
      case None => s' == Snapshot(STOPPED, s.errors, s.starts, s.stops + 1)
      case Some(e) => Failed(s, s', e) && s'.starts == s.starts && s'.stops == s.stops
    else s' == s
  }

  /** `check` is for services that are running or failed; it ends in RUNNING, or in ERROR. */
  predicate CheckDid(s: Snapshot, check: Outcome, s': Snapshot) {
    if s.state == RUNNING || s.state == ERROR then
      match check
      case None => s' == Snapshot(RUNNING, s.errors, s.starts, s.stops)
      case Some(e) => Failed(s, s', e) && s'.starts == s.starts && s'.stops == s.stops
    else s' == s
  }

  /** `require` starts services that are available or stopped, and checks them if that did not
      raise; it leaves all others alone. */
  predicate RequireDid(s: Snapshot, start: Outcome, check: Outcome, s': Snapshot) {
    if s.state == AVAILABLE || s.state == STOPPED then
      match (start, check)
      case (None, None) => s' == Snapshot(RUNNING, s.errors, s.starts + 1, s.stops)
      case (None, Some(e)) => Failed(s, s', e) && s'.starts == s.starts + 1 && s'.stops == s.stops
      case (Some(e), _) => Failed(s, s', e) && s'.starts == s.starts + 1 && s'.stops == s.stops
    else s' == s
  }

  /** In every run, each operation does this to what the operations before it have left. */
  lemma EachOperation(enabled: bool, ops: seq<Operation>, op: Operation)
    ensures var s, s' := Run(enabled, ops), Run(enabled, ops + [op]);
      match op
      case Require(start, check) => RequireDid(s, start, check, s')
      case Check(check) => CheckDid(s, check, s')
      case Stop(stop) => StopDid(s, stop, s')
    ensures Run(enabled, []) == Snapshot(if enabled then AVAILABLE else DISABLED, [], 0, 0)
  {
    assert (ops + [op])[..|ops|] == ops;
  }

  // ---------------------------------------------------------------- over every run

  /** Starts and stops alternate: a container that was started and has not reached STOPPED
      since is running or in error, and no other one is. */
  ghost predicate Inv(s: Snapshot, enabled: bool) {
    && (s.state == AVAILABLE || s.state == DISABLED || s.state == RUNNING || s.state == STOPPED || s.state == ERROR)
    && (s.state == DISABLED <==> !enabled)
    && (s.state == ERROR ==> s.errors != [])
    && s.starts == s.stops + (if s.state == RUNNING || s.state == ERROR then 1 else 0)
    && (s.state == AVAILABLE || s.state == DISABLED ==> s.starts == 0 && s.errors == [])
  }

  lemma {:induction false} AlwaysInv(enabled: bool, ops: seq<Operation>)
    ensures Inv(Run(enabled, ops), enabled)
  {
    if ops != [] {
      AlwaysInv(enabled, ops[..|ops| - 1]);
    }
  }

  /** ERROR implies a recorded error; a disabled service is never started, stopped or
      enabled; there is at most one more start than there are completed stops. */
  lemma LifecycleIsSound(enabled: bool, ops: seq<Operation>)
    ensures var s := Run(enabled, ops);
      && (s.state == ERROR ==> s.errors != [])
      && (!enabled ==> s == Snapshot(DISABLED, [], 0, 0))
      && s.stops <= s.starts <= s.stops + 1
  {
    AlwaysInv(enabled, ops);
  }

  /** Errors are only ever added. */
  lemma {:induction false} ErrorsAreKept(enabled: bool, ops: seq<Operation>, later: seq<Operation>)
    ensures Run(enabled, ops).errors <= Run(enabled, ops + later).errors
    decreases |later|
  {
    if later == [] {
      assert ops + later == ops;
    } else {
      var all, init := ops + later, later[..|later| - 1];
      assert all[..|all| - 1] == ops + init;
      ErrorsAreKept(enabled, ops, init);
    }
  }

  /** `require` answers with a running service, or with the reason why there is none. */
  lemma RequireAnswers(enabled: bool, ops: seq<Operation>, start: Outcome, check: Outcome)
    ensures var s, s' := Run(enabled, ops), Run(enabled, ops + [Require(start, check)]);
      && s' == Apply(s, Require(start, check))
      && (AnswerOf(s, s') == Running <==> s'.state == RUNNING)
      && (AnswerOf(s, s') == ServiceDisabled <==> !enabled)
      && (AnswerOf(s, s').Raised? <==> s'.state == ERROR)
      && (s'.state == ERROR ==> s'.errors != [] && AnswerOf(s, s') == Raised(s'.errors[|s'.errors| - 1]))
      && AnswerOf(s, s') != NotReady
  {
    assert (ops + [Require(start, check)])[..|ops|] == ops;
    AlwaysInv(enabled, ops);
    AlwaysInv(enabled, ops + [Require(start, check)]);
  }

  /** The answer of `require`, from the container before and after it. */
  function AnswerOf(s: Snapshot, s': Snapshot): Answer {
    if s.state == DISABLED then ServiceDisabled
    else if s'.state == RUNNING then Running
    else if s'.state == ERROR && s'.errors != [] then Raised(s'.errors[|s'.errors| - 1])
    else NotReady
  }

  // ---------------------------------------------------------------- the container

  class ServiceContainer {
    var state: ServiceState
    var errors: seq<Error>
    ghost var starts: nat
    ghost var stops: nat

    ghost function Shown(): Snapshot
      reads this
    {
      Snapshot(state, errors, starts, stops)
    }

    constructor (enabled: bool)
      ensures Shown() == Run(enabled, [])
    {
      state := if enabled then AVAILABLE else DISABLED;
      errors, starts, stops := [], 0, 0;
    }

    method Check(check: Outcome) returns (ok: bool)
      modifies this
      ensures Shown() == Checked(old(Shown()), check) && ok == check.None?
      ensures state == (if check.None? then RUNNING else ERROR) && starts == old(starts) && stops == old(stops)
      ensures errors == if check.None? then old(errors) else old(errors) + [check.value]
    {
      if check.Some? {
        state := ERROR;
        errors := errors + [check.value];
        return false;
      }
      state := RUNNING;
      return true;
    }

    method Start(start: Outcome, check: Outcome) returns (ok: bool)
      modifies this
      ensures Shown() == Started(old(Shown()), start, check) && ok == (start.None? && check.None?)
      ensures state == (if start.None? && check.None? then RUNNING else ERROR)
      ensures starts == old(starts) + 1 && stops == old(stops)
      ensures errors == if start.Some? then old(errors) + [start.value]
                        else if check.Some? then old(errors) + [check.value] else old(errors)
    {
      state := STARTING;
      starts := starts + 1;
      if start.Some? {
        state := ERROR;
        errors := errors + [start.value];
        return false;
      }
      ok := this.Check(check);
    }

    method Stop(stop: Outcome)
      modifies this
      ensures Shown() == Stopped(old(Shown()), stop)
      ensures state == (if stop.None? then STOPPED else ERROR) && starts == old(starts)
      ensures stops == old(stops) + (if stop.None? then 1 else 0)
      ensures errors == if stop.None? then old(errors) else old(errors) + [stop.value]
    {
      state := STOPPING;
      if stop.None? {
        state := STOPPED;
        stops := stops + 1;
      } else {
        state := ERROR;
        errors := errors + [stop.value];
      }
    }

    // The methods of the managers, for one container.

    method RequireRunning(start: Outcome, check: Outcome, ghost enabled: bool) returns (r: Answer)
      requires Inv(Shown(), enabled)
      modifies this
      ensures Shown() == Apply(old(Shown()), Require(start, check))
      ensures RequireDid(old(Shown()), start, check, Shown())
      ensures r == if old(state) == DISABLED then ServiceDisabled
                   else if state == RUNNING then Running else Raised(errors[|errors| - 1])
    {
      if state == DISABLED {
        return ServiceDisabled;
      }
      if state == RUNNING {
        return Running;
      }
      if state == ERROR {
        return Raised(errors[|errors| - 1]);
      }
      if state == AVAILABLE || state == STOPPED {
        var ok := Start(start, check);
        return if ok then Running else Raised(errors[|errors| - 1]);
      }
      return NotReady;
    }

    method CheckIfKnown(check: Outcome) returns (ok: bool)
      modifies this
      ensures Shown() == Apply(old(Shown()), Operation.Check(check))
      ensures CheckDid(old(Shown()), check, Shown())
      ensures ok <==> (old(state) == RUNNING || old(state) == ERROR) && check.None?
    {
      if state == RUNNING || state == ERROR {
        ok := this.Check(check);
      } else {
        ok := false;
      }
    }

    method StopIfActive(stop: Outcome)
      modifies this
      ensures Shown() == Apply(old(Shown()), Operation.Stop(stop))
      ensures StopDid(old(Shown()), stop, Shown())
    {
      if state == STARTING || state == RUNNING {
        this.Stop(stop);
      }
    }
  }

  // ---------------------------------------------------------------- the managers

  ghost function AllShown(services: seq<ServiceContainer>): seq<Snapshot>
    reads services
  {
    seq(|services|, i requires 0 <= i < |services| reads services => services[i].Shown())
  }

  /** A check in front of `i` was made and succeeded. */
  ghost predicate PassedBefore(before: seq<Snapshot>, checks: seq<Outcome>, i: nat)
    requires i <= |before| == |checks|
  {
    exists j :: 0 <= j < i && (before[j].state == RUNNING || before[j].state == ERROR) && checks[j].None?
  }

  /** `check_all`: `any` stops at the first check that succeeds, so the services behind it are
      not checked. */
  method CheckAll(services: seq<ServiceContainer>, checks: seq<Outcome>) returns (found: bool)
    requires |checks| == |services| && forall i, j | 0 <= i < j < |services| :: services[i] != services[j]
    modifies services
    ensures var before := old(AllShown(services)); found <==> PassedBefore(before, checks, |services|)
    ensures var before := old(AllShown(services));
      forall i | 0 <= i < |services| :: services[i].Shown() ==
        if PassedBefore(before, checks, i) then before[i] else Apply(before[i], Check(checks[i]))
    ensures var before := old(AllShown(services));
      forall i | 0 <= i < |services| && !PassedBefore(before, checks, i) ::
        CheckDid(before[i], checks[i], services[i].Shown())
  {
    ghost var before := AllShown(services);
    for i := 0 to |services|
      invariant !PassedBefore(before, checks, i)
      invariant forall j | 0 <= j < i :: services[j].Shown() == Apply(before[j], Check(checks[j]))
      invariant forall j | i <= j < |services| :: services[j].Shown() == before[j]
    {
      found := services[i].CheckIfKnown(checks[i]);
      if found {
        assert before[i].state == RUNNING || before[i].state == ERROR;
        return;
      }
    }
    found := false;
  }

  /** `_stop_services`: a service that is listed twice is stopped once. */
  method StopServices(services: seq<ServiceContainer>, stop: ServiceContainer -> Outcome)
    modifies services
    ensures forall c | c in services :: c.Shown() == Apply(old(c.Shown()), Stop(stop(c)))
    ensures forall c | c in services :: StopDid(old(c.Shown()), stop(c), c.Shown())
    ensures forall c | c in services :: c.state != STARTING && c.state != RUNNING
  {
    for i := 0 to |services|
      invariant forall c | c in services ::
        c.Shown() == if c in services[..i] then Apply(old(c.Shown()), Stop(stop(c))) else old(c.Shown())
    {
      services[i].StopIfActive(stop(services[i]));
    }
  }
}
