/** Lazy loading of one service by any number of threads, from `ServiceLoader.require_service`
    through `ServicePluginManager.get_service_container` and `ServiceManager.require` to
    `ServiceContainer.start`. Every access to shared state is one atomic step. */
module LazyLoading {
  import opened PyDict

  type LockId = nat
  type Tid = nat

  /** The container states that requests can bring about (nobody stops the service). */
  datatype ServiceState = AVAILABLE | DISABLED | STARTING | RUNNING | ERROR

  datatype Container = Container(state: ServiceState, owner: Option<Tid>)

  /** Where a thread is; `lock` is its load lock and `c` the container it got. */
  datatype Pc =
    | CheckLoaded                                   // if service_name in self.loaded_services
    | FirstRead                                     // self._services.get(name), without a lock
    | LookUpLock                                    // self._plugin_load_locks[name]
    | AcquireLoad(lock: LockId)                     // with load_lock:
    | SecondRead(lock: LockId)                      //   self._services.get(name), under the lock
    | LoadPlugin(lock: LockId)                      //   self._load_service_plugin(name)
    | Install(lock: LockId)                         //   super().add_service(plugin.service)
    | DropLock(lock: LockId)                        //   del self._plugin_load_locks[name]
    | ThirdRead(lock: LockId)                       //   return self._services.get(name)
    | Poll(c: nat)                                  // container.state == ServiceState.STARTING
    | AcquireContainer(c: nat)                      // with container.lock:
    | Decide(c: nat)                                //   the tests on container.state
    | Starting(c: nat)                              //   self.service.start(...)
    | Checking(c: nat)                              //   self.service.check(...)
    | AcquireRoute                                  // with self.service_locks[...]:
    | CheckAgain                                    //   if service_name in self.loaded_services
    | Register                                      //   request_router.add_skeleton(...)
    | Done                                          // the request goes on
    | Failed                                        // an expected exception was raised
    | Crashed                                       // KeyError from deleting a missing lock

  datatype State = State(
    threads: seq<Pc>,
    services: Option<nat>,          // _services[name]: an index into containers
    containers: seq<Container>,     // every container ever created
    entry: Option<LockId>,          // _plugin_load_locks[name]
    nextLock: LockId,
    loadOwners: map<LockId, Tid>,   // load locks that are held
    routeOwner: Option<Tid>,
    loaded: bool,                   // service_name in loaded_services
    starts: nat,                    // calls of service.start
    registrations: nat)             // calls of add_skeleton

  function Initial(n: nat): State {
    State(seq(n, i => CheckLoaded), None, [], None, 0, map[], None, false, 0, 0)
  }

  predicate Finished(pc: Pc) { pc.Done? || pc.Failed? || pc.Crashed? }

  /** Whether thread `t` can take a step; it cannot while it waits for a lock or for a
      container that is starting. */
  predicate Enabled(s: State, t: Tid)
    requires t < |s.threads|
  {
    match s.threads[t]
    case AcquireLoad(lock) => lock !in s.loadOwners
    case Poll(c) => c < |s.containers| && s.containers[c].state != STARTING
    case AcquireContainer(c) => c < |s.containers| && s.containers[c].owner.None?
    case Decide(c) => c < |s.containers|
    case Starting(c) => c < |s.containers|
    case Checking(c) => c < |s.containers|
    case AcquireRoute => s.routeOwner.None?
    case Done => false
    case Failed => false
    case Crashed => false
    case _ => true
  }

  function Go(s: State, t: Tid, pc: Pc): State
    requires t < |s.threads|
  {
    s.(threads := s.threads[t := pc])
  }

  function SetState(s: State, c: nat, state: ServiceState): State
    requires c < |s.containers|
  {
    s.(containers := s.containers[c := s.containers[c].(state := state)])
  }

  function SetOwner(s: State, c: nat, owner: Option<Tid>): State
    requires c < |s.containers|
  {
    s.(containers := s.containers[c := s.containers[c].(owner := owner)])
  }

  function ReleaseLoad(s: State, lock: LockId): State {
    s.(loadOwners := s.loadOwners - {lock})
  }

  /** One step of thread `t`. `ok` says how the outside world answers: whether the plugin
      loads, whether the service is enabled, whether starting and checking it succeed. */
  function Step(s: State, t: Tid, ok: bool): State
    requires t < |s.threads| && Enabled(s, t)
  {
    match s.threads[t]
    case CheckLoaded => Go(s, t, if s.loaded then Done else FirstRead)
    case FirstRead => Go(s, t, if s.services.Some? then Poll(s.services.value) else LookUpLock)
    case LookUpLock =>
      if s.entry.Some? then Go(s, t, AcquireLoad(s.entry.value))
      else Go(s.(entry := Some(s.nextLock), nextLock := s.nextLock + 1), t, AcquireLoad(s.nextLock))
    case AcquireLoad(lock) => Go(s.(loadOwners := s.loadOwners[lock := t]), t, SecondRead(lock))
    case SecondRead(lock) =>
      if s.services.Some? then Go(ReleaseLoad(s, lock), t, Poll(s.services.value)) else Go(s, t, LoadPlugin(lock))
    case LoadPlugin(lock) => if ok then Go(s, t, Install(lock)) else Go(ReleaseLoad(s, lock), t, Failed)
    case Install(lock) =>
      var c := Container(if ok then AVAILABLE else DISABLED, None);
      Go(s.(containers := s.containers + [c], services := Some(|s.containers|)), t, DropLock(lock))
    case DropLock(lock) =>
      if s.entry.None? then Go(ReleaseLoad(s, lock), t, Crashed) else Go(s.(entry := None), t, ThirdRead(lock))
    case ThirdRead(lock) =>
      Go(ReleaseLoad(s, lock), t, if s.services.Some? then Poll(s.services.value) else Failed)
    case Poll(c) => Go(s, t, AcquireContainer(c))
    case AcquireContainer(c) => Go(SetOwner(s, c, Some(t)), t, Decide(c))
    case Decide(c) =>
      match s.containers[c].state {
        case RUNNING => Go(SetOwner(s, c, None), t, AcquireRoute)
        case AVAILABLE => Go(SetState(s, c, STARTING), t, Starting(c))
        case _ => Go(SetOwner(s, c, None), t, Failed)
      }
    case Starting(c) =>
      var s' := s.(starts := s.starts + 1);
      if ok then Go(s', t, Checking(c)) else Go(SetOwner(SetState(s', c, ERROR), c, None), t, Failed)
    case Checking(c) =>
      if ok then Go(SetOwner(SetState(s, c, RUNNING), c, None), t, AcquireRoute)
      else Go(SetOwner(SetState(s, c, ERROR), c, None), t, Failed)
    case AcquireRoute => Go(s.(routeOwner := Some(t)), t, CheckAgain)
    case CheckAgain =>
      if s.loaded then Go(s.(routeOwner := None), t, Done) else Go(s.(loaded := true), t, Register)
    case Register => Go(s.(registrations := s.registrations + 1, routeOwner := None), t, Done)
  }

  /** A thread that polls a starting container may also give up after its timeout. */
  datatype Choice = Choice(t: Tid, ok: bool, timeout: bool)

  function Turn(s: State, choice: Choice): State {
    if choice.t >= |s.threads| then s
    else if choice.timeout && s.threads[choice.t].Poll? then Go(s, choice.t, Failed)
    else if Enabled(s, choice.t) then Step(s, choice.t, choice.ok)
    else s
  }

  /** The state after a schedule: any interleaving of any length, with any answers. */
  function Run(n: nat, schedule: seq<Choice>): State {
    if schedule == [] then Initial(n)
    else Turn(Run(n, schedule[..|schedule| - 1]), schedule[|schedule| - 1])
  }

  // ---------------------------------------------------------------- invariant

  predicate HasLoadLock(pc: Pc) {
    pc.AcquireLoad? || HoldsLoadLock(pc)
  }

  predicate HoldsLoadLock(pc: Pc) {
    pc.SecondRead? || pc.LoadPlugin? || pc.Install? || pc.DropLock? || pc.ThirdRead?
  }

  predicate HasContainer(pc: Pc) {
    pc.Poll? || pc.AcquireContainer? || HoldsContainer(pc)
  }

  predicate HoldsContainer(pc: Pc) {
    pc.Decide? || pc.Starting? || pc.Checking?
  }

  predicate HoldsRoute(pc: Pc) {
    pc.CheckAgain? || pc.Register?
  }

  /** What a thread may rely on at its place in the code. */
  ghost predicate ThreadOk(s: State, t: Tid)
    requires t < |s.threads|
  {
    var pc := s.threads[t];
    && (HasLoadLock(pc) ==> pc.lock < s.nextLock && (s.services.None? ==> s.entry == Some(pc.lock)))
    && (HoldsLoadLock(pc) ==> pc.lock in s.loadOwners && s.loadOwners[pc.lock] == t)
    && (pc.LoadPlugin? || pc.Install? ==> s.services.None?)
    && (pc.DropLock? ==> s.services.Some? && s.entry == Some(pc.lock))
    && (pc.ThirdRead? ==> s.services.Some? && s.entry != Some(pc.lock))
    && (HasContainer(pc) ==> pc.c == 0 && |s.containers| > 0)
    && (HoldsContainer(pc) ==> |s.containers| > 0 && s.containers[0].owner == Some(t))
    && (pc.Starting? ==> s.containers[0].state == STARTING && s.starts == 0)
    && (pc.Checking? ==> s.containers[0].state == STARTING && s.starts == 1)
    && (pc.AcquireRoute? || HoldsRoute(pc) ==> |s.containers| > 0 && s.containers[0].state == RUNNING)
    && (HoldsRoute(pc) ==> s.routeOwner == Some(t))
    && (pc.Register? ==> s.loaded && s.registrations == 0)
    && !pc.Crashed?
  }

  /** What the shared state guarantees: owners are where they should be, and the counters
      say how far the one load has come. */
  ghost predicate SharedOk(s: State)
  {
    && |s.containers| <= 1
    && (s.services == if |s.containers| == 0 then None else Some(0))
    && (s.entry.Some? ==> s.entry.value < s.nextLock)
    && (forall lock | lock in s.loadOwners :: s.loadOwners[lock] < |s.threads|
          && HoldsLoadLock(s.threads[s.loadOwners[lock]]) && s.threads[s.loadOwners[lock]].lock == lock)
    && (|s.containers| == 0 ==> s.starts == 0 && !s.loaded)
    && (|s.containers| == 1 ==> ContainerOk(s, s.containers[0]))
    && (s.routeOwner.Some? ==> s.routeOwner.value < |s.threads| && HoldsRoute(s.threads[s.routeOwner.value]))
    && (s.loaded && !(s.routeOwner.Some? && s.threads[s.routeOwner.value].Register?) ==> s.registrations == 1)
    && (!s.loaded ==> s.registrations == 0)
    && s.starts <= 1 && s.registrations <= 1
  }

  ghost predicate ContainerOk(s: State, c: Container) {
    && (c.owner.Some? ==> c.owner.value < |s.threads| && HoldsContainer(s.threads[c.owner.value]))
    && (c.state == STARTING ==> c.owner.Some? && !s.threads[c.owner.value].Decide?)
    && (c.state == AVAILABLE || c.state == DISABLED ==> s.starts == 0 && !s.loaded)
    && (c.state == RUNNING ==> s.starts == 1)
    && (s.loaded ==> c.state == RUNNING)
  }

  ghost predicate Inv(s: State) {
    SharedOk(s) && forall t: Tid | t < |s.threads| :: ThreadOk(s, t)
  }

  lemma InitialInv(n: nat)
    ensures Inv(Initial(n))
  {
  }

  /** What a step of one thread needs to know of itself and of another one. */
  ghost predicate Near(s: State, t: Tid, u: Tid) {
    t < |s.threads| && u < |s.threads| && SharedOk(s) && ThreadOk(s, t) && ThreadOk(s, u)
  }

  ghost predicate Keeps(s: State, t: Tid, ok: bool, u: Tid)
    requires t < |s.threads| && Enabled(s, t)
  {
    |Step(s, t, ok).threads| == |s.threads| && u < |s.threads| && ThreadOk(Step(s, t, ok), u)
  }

  lemma ReadKeeps(s: State, t: Tid, ok: bool, u: Tid)
    requires t < |s.threads| && Enabled(s, t) && (s.threads[t].CheckLoaded? || s.threads[t].FirstRead?)
    requires Near(s, t, u)
    ensures Keeps(s, t, ok, u)
  {
    assert u != t ==> Step(s, t, ok).threads[u] == s.threads[u];
  }

  lemma LookupKeeps(s: State, t: Tid, ok: bool, u: Tid)
    requires t < |s.threads| && Enabled(s, t) && (s.threads[t].LookUpLock? || s.threads[t].AcquireLoad?)
    requires Near(s, t, u)
    ensures Keeps(s, t, ok, u)
  {
    assert u != t ==> Step(s, t, ok).threads[u] == s.threads[u];
  }

  lemma LoadKeeps(s: State, t: Tid, ok: bool, u: Tid)
    requires t < |s.threads| && Enabled(s, t) && (s.threads[t].SecondRead? || s.threads[t].LoadPlugin? || s.threads[t].Install?)
    requires Near(s, t, u)
    ensures Keeps(s, t, ok, u)
  {
    assert u != t ==> Step(s, t, ok).threads[u] == s.threads[u];
  }

  lemma DropKeeps(s: State, t: Tid, ok: bool, u: Tid)
    requires t < |s.threads| && Enabled(s, t) && (s.threads[t].DropLock? || s.threads[t].ThirdRead?)
    requires Near(s, t, u)
    ensures Keeps(s, t, ok, u)
  {
    assert u != t ==> Step(s, t, ok).threads[u] == s.threads[u];
  }

  lemma WaitKeeps(s: State, t: Tid, ok: bool, u: Tid)
    requires t < |s.threads| && Enabled(s, t) && (s.threads[t].Poll? || s.threads[t].AcquireContainer?)
    requires Near(s, t, u)
    ensures Keeps(s, t, ok, u)
  {
    assert u != t ==> Step(s, t, ok).threads[u] == s.threads[u];
  }

  lemma DecideKeeps(s: State, t: Tid, ok: bool, u: Tid)
    requires t < |s.threads| && Enabled(s, t) && s.threads[t].Decide?
    requires Near(s, t, u)
    ensures Keeps(s, t, ok, u)
  {
    assert u != t ==> Step(s, t, ok).threads[u] == s.threads[u];
  }

  lemma StartKeeps(s: State, t: Tid, ok: bool, u: Tid)
    requires t < |s.threads| && Enabled(s, t) && (s.threads[t].Starting? || s.threads[t].Checking?)
    requires Near(s, t, u)
    ensures Keeps(s, t, ok, u)
  {
    assert u != t ==> Step(s, t, ok).threads[u] == s.threads[u];
  }

  lemma RouteKeeps(s: State, t: Tid, ok: bool, u: Tid)
    requires t < |s.threads| && Enabled(s, t) && (s.threads[t].AcquireRoute? || HoldsRoute(s.threads[t]))
    requires Near(s, t, u)
    ensures Keeps(s, t, ok, u)
  {
    assert u != t ==> Step(s, t, ok).threads[u] == s.threads[u];
  }

  lemma ReadShared(s: State, t: Tid, ok: bool)
    requires t < |s.threads| && Enabled(s, t) && (s.threads[t].CheckLoaded? || s.threads[t].FirstRead?)
    requires Near(s, t, t)
    ensures SharedOk(Step(s, t, ok))
  {
  }

  lemma LookupShared(s: State, t: Tid, ok: bool)
    requires t < |s.threads| && Enabled(s, t) && (s.threads[t].LookUpLock? || s.threads[t].AcquireLoad?)
    requires Near(s, t, t)
    ensures SharedOk(Step(s, t, ok))
  {
  }

  lemma LoadShared(s: State, t: Tid, ok: bool)
    requires t < |s.threads| && Enabled(s, t) && (s.threads[t].SecondRead? || s.threads[t].LoadPlugin? || s.threads[t].Install?)
    requires Near(s, t, t)
    ensures SharedOk(Step(s, t, ok))
  {
  }

  lemma DropShared(s: State, t: Tid, ok: bool)
    requires t < |s.threads| && Enabled(s, t) && (s.threads[t].DropLock? || s.threads[t].ThirdRead?)
    requires Near(s, t, t)
    ensures SharedOk(Step(s, t, ok))
  {
  }

  lemma WaitShared(s: State, t: Tid, ok: bool)
    requires t < |s.threads| && Enabled(s, t) && (s.threads[t].Poll? || s.threads[t].AcquireContainer?)
    requires Near(s, t, t)
    ensures SharedOk(Step(s, t, ok))
  {
  }

  lemma DecideShared(s: State, t: Tid, ok: bool)
    requires t < |s.threads| && Enabled(s, t) && s.threads[t].Decide?
    requires Near(s, t, t)
    ensures SharedOk(Step(s, t, ok))
  {
  }

  lemma StartShared(s: State, t: Tid, ok: bool)
    requires t < |s.threads| && Enabled(s, t) && (s.threads[t].Starting? || s.threads[t].Checking?)
    requires Near(s, t, t)
    ensures SharedOk(Step(s, t, ok))
  {
  }

  lemma RouteShared(s: State, t: Tid, ok: bool)
    requires t < |s.threads| && Enabled(s, t) && (s.threads[t].AcquireRoute? || HoldsRoute(s.threads[t]))
    requires Near(s, t, t)
    ensures SharedOk(Step(s, t, ok))
  {
  }

  lemma StepKeeps(s: State, t: Tid, ok: bool, u: Tid)
    requires t < |s.threads| && Enabled(s, t)
    requires Near(s, t, u)
    ensures Keeps(s, t, ok, u)
  {
    var pc := s.threads[t];
    if pc.CheckLoaded? || pc.FirstRead? {
      ReadKeeps(s, t, ok, u);
    } else if pc.LookUpLock? || pc.AcquireLoad? {
      LookupKeeps(s, t, ok, u);
    } else if pc.SecondRead? || pc.LoadPlugin? || pc.Install? {
      LoadKeeps(s, t, ok, u);
    } else if pc.DropLock? || pc.ThirdRead? {
      DropKeeps(s, t, ok, u);
    } else if pc.Poll? || pc.AcquireContainer? {
      WaitKeeps(s, t, ok, u);
    } else if pc.Decide? {
      DecideKeeps(s, t, ok, u);
    } else if pc.Starting? || pc.Checking? {
      StartKeeps(s, t, ok, u);
    } else {
      RouteKeeps(s, t, ok, u);
    }
  }

  lemma StepShared(s: State, t: Tid, ok: bool)
    requires t < |s.threads| && Enabled(s, t)
    requires Near(s, t, t)
    ensures SharedOk(Step(s, t, ok))
  {
    var pc := s.threads[t];
    if pc.CheckLoaded? || pc.FirstRead? {
      ReadShared(s, t, ok);
    } else if pc.LookUpLock? || pc.AcquireLoad? {
      LookupShared(s, t, ok);
    } else if pc.SecondRead? || pc.LoadPlugin? || pc.Install? {
      LoadShared(s, t, ok);
    } else if pc.DropLock? || pc.ThirdRead? {
      DropShared(s, t, ok);
    } else if pc.Poll? || pc.AcquireContainer? {
      WaitShared(s, t, ok);
    } else if pc.Decide? {
      DecideShared(s, t, ok);
    } else if pc.Starting? || pc.Checking? {
      StartShared(s, t, ok);
    } else {
      RouteShared(s, t, ok);
    }
  }

  lemma StepInv(s: State, t: Tid, ok: bool)
    requires t < |s.threads| && Enabled(s, t)
    requires Inv(s)
    ensures Inv(Step(s, t, ok))
  {
    assert Near(s, t, t);
    StepShared(s, t, ok);
    StepKeeps(s, t, ok, t);
    forall u: Tid | u < |s.threads| ensures ThreadOk(Step(s, t, ok), u) {
      assert Near(s, t, u);
      StepKeeps(s, t, ok, u);
    }
  }

  lemma TurnInv(s: State, choice: Choice)
    requires Inv(s)
    ensures Inv(Turn(s, choice))
  {
    if choice.t < |s.threads| {
      if choice.timeout && s.threads[choice.t].Poll? {
        TimeoutInv(s, choice.t);
      } else if Enabled(s, choice.t) {
        StepInv(s, choice.t, choice.ok);
      }
    }
  }

  lemma TurnKeepsThreads(s: State, choice: Choice)
    ensures |Turn(s, choice).threads| == |s.threads|
  {
    if choice.t < |s.threads| && Enabled(s, choice.t) {
      StepMoves(s, choice.t, choice.ok);
    }
  }

  lemma TimeoutInv(s: State, t: Tid)
    requires Inv(s) && t < |s.threads| && s.threads[t].Poll?
    ensures Inv(Go(s, t, Failed))
  {
    forall u: Tid | u < |s.threads| ensures ThreadOk(Go(s, t, Failed), u) { assert ThreadOk(s, u); }
  }

  lemma {:induction false} RunInv(n: nat, schedule: seq<Choice>)
    ensures Inv(Run(n, schedule)) && |Run(n, schedule).threads| == n
  {
    if schedule == [] {
      InitialInv(n);
    } else {
      RunInv(n, schedule[..|schedule| - 1]);
      TurnInv(Run(n, schedule[..|schedule| - 1]), schedule[|schedule| - 1]);
      TurnKeepsThreads(Run(n, schedule[..|schedule| - 1]), schedule[|schedule| - 1]);
    }
  }

  // ---------------------------------------------------------------- loading happens once

  /** In every interleaving at most one container is created and installed, it is started at
      most once, its skeleton is registered at most once, and the lock is always there to
      be deleted. */
  lemma LoadedOnce(n: nat, schedule: seq<Choice>)
    ensures var s := Run(n, schedule);
      && |s.containers| <= 1 && s.starts <= 1 && s.registrations <= 1
      && (s.services.Some? <==> |s.containers| == 1)
      && forall t: Tid | t < |s.threads| :: !s.threads[t].Crashed?
  {
    RunInv(n, schedule);
    var s := Run(n, schedule);
    forall t: Tid | t < |s.threads| ensures !s.threads[t].Crashed? { assert ThreadOk(s, t); }
  }

  /** Never more than one thread is between the second read and the installation. */
  lemma OneLoader(n: nat, schedule: seq<Choice>, t: Tid, u: Tid)
    requires t < n && u < n
    requires |Run(n, schedule).threads| == n
    requires var pc := Run(n, schedule).threads[t]; pc.LoadPlugin? || pc.Install?
    requires var pc := Run(n, schedule).threads[u]; pc.LoadPlugin? || pc.Install?
    ensures t == u
  {
    RunInv(n, schedule);
    assert ThreadOk(Run(n, schedule), t) && ThreadOk(Run(n, schedule), u);
  }

  /** When the loader comes back, the container is there and the lock that guarded the load is
      gone from the table. */
  lemma LockIsDropped(n: nat, schedule: seq<Choice>, t: Tid)
    requires t < n && |Run(n, schedule).threads| == n && Run(n, schedule).threads[t].ThirdRead?
    ensures var s := Run(n, schedule); s.services.Some? && s.entry != Some(s.threads[t].lock)
  {
    RunInv(n, schedule);
    assert ThreadOk(Run(n, schedule), t);
  }

  /** Once installed, the container is never replaced, whatever happens next. */
  lemma {:induction false} NeverReplaced(n: nat, schedule: seq<Choice>, later: seq<Choice>)
    requires Run(n, schedule).services.Some?
    ensures Run(n, schedule + later).services == Run(n, schedule).services
    decreases |later|
  {
    if later == [] {
      assert schedule + later == schedule;
    } else {
      var init, last := later[..|later| - 1], later[|later| - 1];
      assert schedule + later == schedule + init + [last];
      NeverReplaced(n, schedule, init);
      RunInv(n, schedule + init);
      Snoc(n, schedule + init, last);
      TurnKeepsServices(Run(n, schedule + init), last);
    }
  }

  lemma Snoc(n: nat, schedule: seq<Choice>, c: Choice)
    ensures Run(n, schedule + [c]) == Turn(Run(n, schedule), c)
  {
    assert (schedule + [c])[..|schedule|] == schedule;
  }

  lemma TurnKeepsServices(s: State, choice: Choice)
    requires Inv(s) && s.services.Some?
    ensures Turn(s, choice).services == s.services
  {
    if choice.t < |s.threads| { assert ThreadOk(s, choice.t); }
  }

  // ---------------------------------------------------------------- what the answers decide

  /** How the state of the container may change: by a start, and then as the start and the
      check answer. */
  predicate Transition(before: ServiceState, after: ServiceState, ok: bool) {
    || before == after
    || (before == AVAILABLE && after == STARTING)
    || (before == STARTING && after == RUNNING && ok)
    || (before == STARTING && after == ERROR && !ok)
  }

  /** A container is made available exactly if the service is enabled; its state follows the
      answers; and a request fails only because of a bad answer, of a timeout, or of a
      container that is disabled or in error. */
  lemma AnswersDecide(s: State, choice: Choice)
    requires Inv(s)
    ensures var s' := Turn(s, choice);
      && (|s'.containers| > |s.containers| ==> s'.containers[0].state == if choice.ok then AVAILABLE else DISABLED)
      && (|s.containers| == 1 ==>
            |s'.containers| == 1 && Transition(s.containers[0].state, s'.containers[0].state, choice.ok))
      && |s'.threads| == |s.threads|
      && forall t: Tid | t < |s.threads| && s'.threads[t] == Failed && s.threads[t] != Failed ::
           MayFail(s, choice)
  {
    if choice.t < |s.threads| {
      assert ThreadOk(s, choice.t);
      if Enabled(s, choice.t) { StepMoves(s, choice.t, choice.ok); }
    }
  }

  predicate MayFail(s: State, choice: Choice) {
    choice.timeout || !choice.ok || (|s.containers| == 1 && s.containers[0].state in {DISABLED, ERROR})
  }

  /** And it does fail when the plugin does not load, or the start or the check raises. */
  lemma BadAnswersFail(s: State, choice: Choice)
    requires Inv(s) && choice.t < |s.threads| && !choice.ok
    requires var pc := s.threads[choice.t]; pc.LoadPlugin? || pc.Starting? || pc.Checking?
    ensures var s' := Turn(s, choice);
      && choice.t < |s'.threads| && s'.threads[choice.t] == Failed
      && (!s.threads[choice.t].LoadPlugin? ==> |s'.containers| == 1 && s'.containers[0].state == ERROR)
  {
    assert ThreadOk(s, choice.t);
  }

  /** With good answers and without timeouts no request ever fails. */
  lemma {:induction false} AllGood(n: nat, schedule: seq<Choice>)
    requires forall c | c in schedule :: c.ok && !c.timeout
    ensures var s := Run(n, schedule);
      && (forall t: Tid | t < |s.threads| :: s.threads[t] != Failed)
      && (|s.containers| == 1 ==> s.containers[0].state !in {DISABLED, ERROR})
  {
    if schedule != [] {
      var init, c := schedule[..|schedule| - 1], schedule[|schedule| - 1];
      assert c in schedule && forall x | x in init :: x in schedule;
      AllGood(n, init);
      RunInv(n, init);
      RunInv(n, schedule);
      AnswersDecide(Run(n, init), c);
    }
  }

  lemma {:induction false} NotYetServed(n: nat, schedule: seq<Choice>, t: Tid)
    requires t < n && forall c | c in schedule :: c.t != t
    ensures var s := Run(n, schedule); |s.threads| == n && s.threads[t] == CheckLoaded
  {
    if schedule != [] {
      var init, c := schedule[..|schedule| - 1], schedule[|schedule| - 1];
      assert c in schedule && forall x | x in init :: x in schedule;
      NotYetServed(n, init, t);
      var s := Run(n, init);
      if c.t < n && Enabled(s, c.t) { StepMoves(s, c.t, c.ok); }
    }
  }

  /** A request that comes when the service is loaded is done in one step: it waits for
      nothing, whoever holds whichever lock, and changes nothing. */
  lemma LaterRequestsPass(n: nat, schedule: seq<Choice>, c: Choice)
    requires c.t < n && forall x | x in schedule :: x.t != c.t
    requires Run(n, schedule).loaded
    ensures var s := Run(n, schedule);
      |s.threads| == n && Run(n, schedule + [c]) == s.(threads := s.threads[c.t := Done])
  {
    NotYetServed(n, schedule, c.t);
    assert (schedule + [c])[..|schedule|] == schedule;
  }

  // ---------------------------------------------------------------- requests come to an end

  /** No deadlock: while some request is not finished, some thread can take a step. */
  lemma NoDeadlock(n: nat, schedule: seq<Choice>, t: Tid)
    requires t < n && |Run(n, schedule).threads| == n && !Finished(Run(n, schedule).threads[t])
    ensures exists u: Tid :: u < n && Enabled(Run(n, schedule), u)
  {
    RunInv(n, schedule);
    var s := Run(n, schedule);
    assert ThreadOk(s, t);
    if !Enabled(s, t) {
      var pc := s.threads[t];
      var u := t;
      if pc.AcquireLoad? {
        u := s.loadOwners[pc.lock];
      } else if pc.AcquireRoute? {
        u := s.routeOwner.value;
      } else {
        u := s.containers[0].owner.value;
      }
      assert ThreadOk(s, u);
      assert Enabled(s, u);
    }
  }

  /** How far a thread has come. */
  function Progress(pc: Pc): nat {
    match pc
    case CheckLoaded => 0 case FirstRead => 1 case LookUpLock => 2 case AcquireLoad(_) => 3
    case SecondRead(_) => 4 case LoadPlugin(_) => 5 case Install(_) => 6 case DropLock(_) => 7
    case ThirdRead(_) => 8 case Poll(_) => 9 case AcquireContainer(_) => 10 case Decide(_) => 11
    case Starting(_) => 12 case Checking(_) => 13 case AcquireRoute => 14 case CheckAgain => 15
    case Register => 16 case Done => 17 case Failed => 17 case Crashed => 17
  }

  function TotalProgress(threads: seq<Pc>): (r: nat)
    ensures r <= 17 * |threads|
  {
    if threads == [] then 0 else TotalProgress(threads[..|threads| - 1]) + Progress(threads[|threads| - 1])
  }

  lemma {:induction false} ProgressOf(threads: seq<Pc>, t: Tid, pc: Pc)
    requires t < |threads|
    ensures TotalProgress(threads[t := pc]) == TotalProgress(threads) - Progress(threads[t]) + Progress(pc)
  {
    var init, last := threads[..|threads| - 1], threads[|threads| - 1];
    if t < |threads| - 1 {
      ProgressOf(init, t, pc);
      assert threads[t := pc][..|threads| - 1] == init[t := pc];
    } else {
      assert threads[t := pc][..|threads| - 1] == init;
    }
  }

  /** Every step brings its thread further, so no run takes more than 17 steps for each
      request: together with `NoDeadlock`, requests end unless the scheduler stops. */
  lemma StepsAreBounded(s: State, choice: Choice)
    ensures TotalProgress(s.threads) <= 17 * |s.threads|
    ensures Turn(s, choice) == s || TotalProgress(s.threads) < TotalProgress(Turn(s, choice).threads)
  {
    var t := choice.t;
    if t < |s.threads| {
      if choice.timeout && s.threads[t].Poll? {
        ProgressOf(s.threads, t, Failed);
      } else if Enabled(s, t) {
        StepMoves(s, t, choice.ok);
        StepProgress(s, t, choice.ok);
        ProgressOf(s.threads, t, Step(s, t, choice.ok).threads[t]);
      }
    }
  }

  lemma StepMoves(s: State, t: Tid, ok: bool)
    requires t < |s.threads| && Enabled(s, t)
    ensures var threads := Step(s, t, ok).threads; t < |threads| && threads == s.threads[t := threads[t]]
  {
  }

  lemma StepProgress(s: State, t: Tid, ok: bool)
    requires t < |s.threads| && Enabled(s, t) && t < |Step(s, t, ok).threads|
    ensures Progress(s.threads[t]) < Progress(Step(s, t, ok).threads[t])
  {
    var pc := s.threads[t];
    if pc.CheckLoaded? || pc.FirstRead? || pc.LookUpLock? || pc.AcquireLoad? {
      LookupProgress(s, t, ok);
    } else if pc.SecondRead? || pc.LoadPlugin? {
      LoadProgress(s, t, ok);
    } else if pc.Install? || pc.DropLock? || pc.ThirdRead? {
      DropProgress(s, t, ok);
    } else if pc.Poll? || pc.AcquireContainer? || pc.Decide? {
      WaitProgress(s, t, ok);
    } else if pc.Starting? || pc.Checking? {
      StartProgress(s, t, ok);
    } else {
      RouteProgress(s, t, ok);
    }
  }

  lemma LookupProgress(s: State, t: Tid, ok: bool)
    requires t < |s.threads| && Enabled(s, t) && t < |Step(s, t, ok).threads|
    requires var pc := s.threads[t]; pc.CheckLoaded? || pc.FirstRead? || pc.LookUpLock? || pc.AcquireLoad?
    ensures Progress(s.threads[t]) < Progress(Step(s, t, ok).threads[t])
  {
  }

  lemma LoadProgress(s: State, t: Tid, ok: bool)
    requires t < |s.threads| && Enabled(s, t) && t < |Step(s, t, ok).threads|
    requires var pc := s.threads[t]; pc.SecondRead? || pc.LoadPlugin?
    ensures Progress(s.threads[t]) < Progress(Step(s, t, ok).threads[t])
  {
  }

  lemma DropProgress(s: State, t: Tid, ok: bool)
    requires t < |s.threads| && Enabled(s, t) && t < |Step(s, t, ok).threads|
    requires var pc := s.threads[t]; pc.Install? || pc.DropLock? || pc.ThirdRead?
    ensures Progress(s.threads[t]) < Progress(Step(s, t, ok).threads[t])
  {
  }

  lemma WaitProgress(s: State, t: Tid, ok: bool)
    requires t < |s.threads| && Enabled(s, t) && t < |Step(s, t, ok).threads|
    requires var pc := s.threads[t]; pc.Poll? || pc.AcquireContainer? || pc.Decide?
    ensures Progress(s.threads[t]) < Progress(Step(s, t, ok).threads[t])
  {
  }

  lemma StartProgress(s: State, t: Tid, ok: bool)
    requires t < |s.threads| && Enabled(s, t) && t < |Step(s, t, ok).threads|
    requires var pc := s.threads[t]; pc.Starting? || pc.Checking?
    ensures Progress(s.threads[t]) < Progress(Step(s, t, ok).threads[t])
  {
  }

  lemma RouteProgress(s: State, t: Tid, ok: bool)
    requires t < |s.threads| && Enabled(s, t) && t < |Step(s, t, ok).threads|
    requires var pc := s.threads[t]; pc.AcquireRoute? || HoldsRoute(pc)
    ensures Progress(s.threads[t]) < Progress(Step(s, t, ok).threads[t])
  {
  }

  /** When all requests are over and one of them succeeded, the service was started exactly
      once and is running, and its skeleton was registered exactly once. */
  lemma AllOver(n: nat, schedule: seq<Choice>)
    requires |Run(n, schedule).threads| == n
    requires forall t: Tid | t < n :: Finished(Run(n, schedule).threads[t])
    requires exists t: Tid :: t < n && Run(n, schedule).threads[t] == Done
    ensures var s := Run(n, schedule);
      s.registrations == 1 && s.starts == 1 && |s.containers| == 1 && s.containers[0].state == RUNNING
  {
    RunInv(n, schedule);
    DoneMeansLoaded(n, schedule);
  }

  lemma StepMarks(s: State, t: Tid, ok: bool)
    requires t < |s.threads| && Enabled(s, t) && t < |Step(s, t, ok).threads|
    requires Inv(s)
    ensures var s' := Step(s, t, ok); (s.loaded ==> s'.loaded) && (s'.threads[t] == Done ==> s'.loaded)
  {
    assert ThreadOk(s, t);
  }

  lemma TurnMarks(s: State, choice: Choice)
    requires Inv(s)
    ensures var s' := Turn(s, choice);
      && (s.loaded ==> s'.loaded)
      && forall t: Tid | t < |s'.threads| && s'.threads[t] == Done :: s'.loaded || (t < |s.threads| && s.threads[t] == Done)
  {
    if choice.t < |s.threads| && Enabled(s, choice.t) {
      StepMoves(s, choice.t, choice.ok);
      StepMarks(s, choice.t, choice.ok);
    }
  }

  /** A request only succeeds once some thread has marked the service as loaded. */
  lemma {:induction false} DoneMeansLoaded(n: nat, schedule: seq<Choice>)
    ensures var s := Run(n, schedule); forall t: Tid | t < |s.threads| :: s.threads[t] == Done ==> s.loaded
  {
    if schedule != [] {
      var init, last := schedule[..|schedule| - 1], schedule[|schedule| - 1];
      DoneMeansLoaded(n, init);
      RunInv(n, init);
      TurnMarks(Run(n, init), last);
    }
  }
}
