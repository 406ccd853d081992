/** Running functions once for many callers: `once_func` over `Once`. Every access to shared
    state is one atomic step of one caller. The mutex is an attribute of the class, so all
    wrapped functions share it, and it is not re-entrant; a wrapped function may call other
    wrapped functions, or itself, while it runs. */
module ExactlyOnce {
  import opened PyDict

  /** What a wrapped function does when it ends: return, raise an `Exception`, or raise
      something that is not an `Exception`, such as KeyboardInterrupt. */
  datatype Result = Returned(value: int) | Raised(error: int) | Interrupted(error: int)

  /** What a call of the wrapper returns or raises, `NoValue` when it returns the initial None. */
  datatype Answer = Value(value: int) | Exception(error: int) | Interrupt(error: int) | NoValue

  datatype Pc =
    | FirstTest            // if self._is_done
    | AcquireMutex         // with self._mu
    | SecondTest           //   if not self._is_done
    | InFunction           //   fn() in _do, with its result or exception stored
    | MarkDone(r: Result)  //   finally: self._is_done = True
    | Report               // if exception is not None: raise exception; return result
    | Finished(answer: Answer)

  /** A call of a wrapper that has not returned to its caller yet. */
  datatype Frame = Frame(fn: nat, pc: Pc)

  datatype Ran = Ran(caller: nat, result: Result)

  /** The variables of one wrapped function, with one entry for every time it ran. */
  datatype Cell = Cell(isDone: bool, result: Option<int>, exception: Option<int>, runs: seq<Ran>)

  datatype State = State(stacks: seq<seq<Frame>>, cells: seq<Cell>, owner: Option<nat>)

  /** Caller `t` calls the function `calls[t]`. */
  ghost predicate Program(calls: seq<nat>, functions: nat) {
    forall fn | fn in calls :: fn < functions
  }

  function Initial(calls: seq<nat>, functions: nat): State {
    State(seq(|calls|, t requires 0 <= t < |calls| => [Frame(calls[t], FirstTest)]),
          seq(functions, f => Cell(false, None, None, [])), None)
  }

  // ---------------------------------------------------------------- steps

  predicate Known(s: State, t: nat) {
    t < |s.stacks| && s.stacks[t] != [] && Top(s.stacks[t]).fn < |s.cells|
  }

  function Top(stack: seq<Frame>): Frame
    requires stack != []
  {
    stack[|stack| - 1]
  }

  predicate Over(stack: seq<Frame>) {
    |stack| == 1 && stack[0].pc.Finished?
  }

  predicate Enabled(s: State, t: nat) {
    Known(s, t) && !Over(s.stacks[t]) && (Top(s.stacks[t]).pc.AcquireMutex? ==> s.owner.None?)
  }

  /** What a running function does next: call a wrapped function, or end. */
  datatype Action = Invoke(fn: nat) | End(r: Result)

  function Go(s: State, t: nat, pc: Pc): State
    requires Known(s, t)
  {
    var stack := s.stacks[t];
    s.(stacks := s.stacks[t := stack[|stack| - 1 := Top(stack).(pc := pc)]])
  }

  function SetCell(s: State, fn: nat, cell: Cell): State
    requires fn < |s.cells|
  {
    s.(cells := s.cells[fn := cell])
  }

  function Store(cell: Cell, t: nat, r: Result): Cell {
    cell.(runs := cell.runs + [Ran(t, r)],
          result := if r.Returned? then Some(r.value) else cell.result,
          exception := if r.Raised? then Some(r.error) else cell.exception)
  }

  /** After `do`: an exception leaves the wrapper, a normal return goes on to the report. */
  function Leave(r: Result): Pc {
    match r
    case Returned(_) => Report
    case Raised(e) => Finished(Exception(e))
    case Interrupted(e) => Finished(Interrupt(e))
  }

  function AnswerOf(cell: Cell): Answer {
    if cell.exception.Some? then Exception(cell.exception.value)
    else if cell.result.Some? then Value(cell.result.value) else NoValue
  }

  function Step(s: State, t: nat, a: Action): State
    requires Enabled(s, t)
  {
    var stack := s.stacks[t];
    var fn := Top(stack).fn;
    var cell := s.cells[fn];
    match Top(stack).pc
    case FirstTest => Go(s, t, if cell.isDone then Report else AcquireMutex)
    case AcquireMutex => Go(s, t, SecondTest).(owner := Some(t))
    case SecondTest => if cell.isDone then Go(s, t, Report).(owner := None) else Go(s, t, InFunction)
    case InFunction =>
      match a {
        case Invoke(g) =>
          if g < |s.cells| then s.(stacks := s.stacks[t := stack + [Frame(g, FirstTest)]]) else s
        case End(r) => SetCell(Go(s, t, MarkDone(r)), fn, Store(cell, t, r))
      }
    case MarkDone(r) => SetCell(Go(s, t, Leave(r)), fn, cell.(isDone := true)).(owner := None)
    case Report => Go(s, t, Finished(AnswerOf(cell)))
    case Finished(_) => s.(stacks := s.stacks[t := stack[..|stack| - 1]])
  }

  datatype Choice = Choice(t: nat, a: Action)

  function Turn(s: State, c: Choice): State {
    if Enabled(s, c.t) then Step(s, c.t, c.a) else s
  }

  /** Any interleaving of the callers. */
  function After(s: State, schedule: seq<Choice>): State
    decreases |schedule|
  {
    if schedule == [] then s else After(Turn(s, schedule[0]), schedule[1..])
  }

  // ---------------------------------------------------------------- invariant

  predicate InMutex(pc: Pc) { pc.SecondTest? || pc.InFunction? || pc.MarkDone? }

  predicate Early(pc: Pc) { pc.FirstTest? || pc.AcquireMutex? || pc.SecondTest? || pc.InFunction? }

  /** What a caller is told: an interrupt reaches only the caller that ran the function,
      anybody else then gets None. */
  function AnswerFor(t: nat, run: Ran): Answer {
    match run.result
    case Returned(v) => Value(v)
    case Raised(e) => Exception(e)
    case Interrupted(e) => if run.caller == t then Interrupt(e) else NoValue
  }

  /** The caller has not run the function. */
  predicate Elsewhere(cell: Cell, t: nat) {
    cell.runs != [] ==> cell.runs[0].caller != t
  }

  ghost predicate FrameOk(s: State, t: nat, f: Frame) {
    && f.fn < |s.cells|
    && var cell := s.cells[f.fn];
    && (InMutex(f.pc) ==> s.owner == Some(t))
    && (f.pc.InFunction? ==> cell.runs == [] && !cell.isDone)
    && (f.pc.MarkDone? ==> cell.runs == [Ran(t, f.pc.r)] && !cell.isDone)
    && (f.pc.Report? ==> cell.isDone && |cell.runs| == 1 && (Elsewhere(cell, t) || cell.runs[0].result.Returned?))
    && (f.pc.Finished? ==> cell.isDone && |cell.runs| == 1 && f.pc.answer == AnswerFor(t, cell.runs[0]))
  }

  /** A function that runs holds the mutex, so what it calls can never run: a stack is at most
      two calls deep. */
  ghost predicate StackOk(s: State, t: nat)
    requires t < |s.stacks|
  {
    var stack := s.stacks[t];
    && 1 <= |stack| <= 2
    && FrameOk(s, t, stack[0])
    && (Early(stack[0].pc) ==> forall fn: nat | fn < |s.cells| :: Elsewhere(s.cells[fn], t))
    && (|stack| == 2 ==> stack[0].pc.InFunction? && FrameOk(s, t, stack[1]) && !InMutex(stack[1].pc))
  }

  ghost predicate CellOk(s: State, fn: nat)
    requires fn < |s.cells|
  {
    var cell := s.cells[fn];
    && |cell.runs| <= 1
    && (cell.isDone ==> |cell.runs| == 1)
    && (if cell.runs == [] then cell.result.None? && cell.exception.None? else
          && cell.result == (if cell.runs[0].result.Returned? then Some(cell.runs[0].result.value) else None)
          && cell.exception == (if cell.runs[0].result.Raised? then Some(cell.runs[0].result.error) else None))
    && (|cell.runs| == 1 && !cell.isDone ==>
          s.owner.Some? && s.owner.value < |s.stacks| && s.stacks[s.owner.value] != []
          && s.stacks[s.owner.value][0].fn == fn && s.stacks[s.owner.value][0].pc.MarkDone?)
  }

  ghost predicate OwnerOk(s: State) {
    s.owner.Some? ==>
      s.owner.value < |s.stacks| && s.stacks[s.owner.value] != [] && InMutex(s.stacks[s.owner.value][0].pc)
  }

  ghost predicate Inv(s: State) {
    && OwnerOk(s)
    && (forall fn: nat | fn < |s.cells| :: CellOk(s, fn))
    && (forall t: nat | t < |s.stacks| :: StackOk(s, t))
  }

  lemma InitialInv(calls: seq<nat>, functions: nat)
    requires Program(calls, functions)
    ensures Inv(Initial(calls, functions))
  {
    var s := Initial(calls, functions);
    forall t: nat | t < |s.stacks| ensures StackOk(s, t) {
      assert calls[t] in calls;
    }
  }

  lemma TestSteps(s: State, t: nat, a: Action)
    requires Enabled(s, t)
    requires var pc := Top(s.stacks[t]).pc; pc.FirstTest? || pc.AcquireMutex?
    requires Inv(s)
    ensures Inv(Step(s, t, a))
  {
    var s' := Step(s, t, a);
    assert StackOk(s, t) && CellOk(s, Top(s.stacks[t]).fn);
    forall fn: nat | fn < |s'.cells| ensures CellOk(s', fn) { assert CellOk(s, fn); }
    forall u: nat | u < |s'.stacks| ensures StackOk(s', u) { assert StackOk(s, u); }
  }

  lemma SecondSteps(s: State, t: nat, a: Action)
    requires Enabled(s, t)
    requires var pc := Top(s.stacks[t]).pc; pc.SecondTest?
    requires Inv(s)
    ensures Inv(Step(s, t, a))
  {
    var s' := Step(s, t, a);
    assert StackOk(s, t) && CellOk(s, Top(s.stacks[t]).fn);
    forall fn: nat | fn < |s'.cells| ensures CellOk(s', fn) { assert CellOk(s, fn); }
    forall u: nat | u < |s'.stacks| ensures StackOk(s', u) { assert StackOk(s, u); }
  }

  lemma FunctionSteps(s: State, t: nat, a: Action)
    requires Enabled(s, t) && Top(s.stacks[t]).pc.InFunction?
    requires Inv(s)
    ensures Inv(Step(s, t, a))
  {
    if a.Invoke? { InvokeSteps(s, t, a); } else { EndSteps(s, t, a); }
  }

  lemma InvokeSteps(s: State, t: nat, a: Action)
    requires Enabled(s, t) && Top(s.stacks[t]).pc.InFunction? && a.Invoke?
    requires Inv(s)
    ensures Inv(Step(s, t, a))
  {
    var s' := Step(s, t, a);
    assert StackOk(s, t) && CellOk(s, Top(s.stacks[t]).fn);
    forall fn: nat | fn < |s'.cells| ensures CellOk(s', fn) { assert CellOk(s, fn); }
    forall u: nat | u < |s'.stacks| ensures StackOk(s', u) { assert StackOk(s, u); }
  }

  lemma EndSteps(s: State, t: nat, a: Action)
    requires Enabled(s, t) && Top(s.stacks[t]).pc.InFunction? && a.End?
    requires Inv(s)
    ensures Inv(Step(s, t, a))
  {
    var s' := Step(s, t, a);
    assert StackOk(s, t) && CellOk(s, Top(s.stacks[t]).fn);
    forall fn: nat | fn < |s'.cells| ensures CellOk(s', fn) { assert CellOk(s, fn); }
    forall u: nat | u < |s'.stacks| ensures StackOk(s', u) { EndKeepsStack(s, t, a, u); }
  }

  lemma EndKeepsStack(s: State, t: nat, a: Action, u: nat)
    requires Enabled(s, t) && Top(s.stacks[t]).pc.InFunction? && a.End?
    requires Inv(s)
    ensures var s' := Step(s, t, a); |s'.stacks| == |s.stacks| && (u < |s.stacks| ==> StackOk(s', u))
  {
    assert StackOk(s, t) && CellOk(s, Top(s.stacks[t]).fn);
    if u < |s.stacks| {
      assert StackOk(s, u) && (u != t ==> Step(s, t, a).stacks[u] == s.stacks[u]);
    }
  }

  lemma MarkSteps(s: State, t: nat, a: Action)
    requires Enabled(s, t)
    requires var pc := Top(s.stacks[t]).pc; pc.MarkDone?
    requires Inv(s)
    ensures Inv(Step(s, t, a))
  {
    var s' := Step(s, t, a);
    assert StackOk(s, t) && CellOk(s, Top(s.stacks[t]).fn);
    forall fn: nat | fn < |s'.cells| ensures CellOk(s', fn) { assert CellOk(s, fn); }
    forall u: nat | u < |s'.stacks| ensures StackOk(s', u) { assert StackOk(s, u); }
  }

  lemma LastSteps(s: State, t: nat, a: Action)
    requires Enabled(s, t)
    requires var pc := Top(s.stacks[t]).pc; pc.Report? || pc.Finished?
    requires Inv(s)
    ensures Inv(Step(s, t, a))
  {
    var s' := Step(s, t, a);
    assert StackOk(s, t) && CellOk(s, Top(s.stacks[t]).fn);
    forall fn: nat | fn < |s'.cells| ensures CellOk(s', fn) { assert CellOk(s, fn); }
    forall u: nat | u < |s'.stacks| ensures StackOk(s', u) { assert StackOk(s, u); }
  }

  lemma TurnInv(s: State, c: Choice)
    requires Inv(s)
    ensures Inv(Turn(s, c))
  {
    if Enabled(s, c.t) {
      var pc := Top(s.stacks[c.t]).pc;
      if pc.FirstTest? || pc.AcquireMutex? {
        TestSteps(s, c.t, c.a);
      } else if pc.SecondTest? {
        SecondSteps(s, c.t, c.a);
      } else if pc.InFunction? {
        FunctionSteps(s, c.t, c.a);
      } else if pc.MarkDone? {
        MarkSteps(s, c.t, c.a);
      } else {
        LastSteps(s, c.t, c.a);
      }
    }
  }

  /** Callers stay with the function that they called. */
  ghost predicate Runs(s: State, calls: seq<nat>, functions: nat) {
    && |s.stacks| == |calls| && |s.cells| == functions
    && forall t: nat | t < |calls| :: s.stacks[t] != [] && s.stacks[t][0].fn == calls[t]
  }

  lemma {:induction false} Always(s: State, calls: seq<nat>, functions: nat, schedule: seq<Choice>)
    requires Inv(s) && Runs(s, calls, functions)
    ensures Inv(After(s, schedule)) && Runs(After(s, schedule), calls, functions)
    decreases |schedule|
  {
    if schedule != [] {
      TurnInv(s, schedule[0]);
      if schedule[0].t < |calls| { assert StackOk(s, schedule[0].t); }
      Always(Turn(s, schedule[0]), calls, functions, schedule[1..]);
    }
  }

  lemma FromStart(calls: seq<nat>, functions: nat, schedule: seq<Choice>)
    requires Program(calls, functions)
    ensures Inv(After(Initial(calls, functions), schedule))
    ensures Runs(After(Initial(calls, functions), schedule), calls, functions)
  {
    InitialInv(calls, functions);
    Always(Initial(calls, functions), calls, functions, schedule);
  }

  lemma {:induction false} AfterConcat(s: State, a: seq<Choice>, b: seq<Choice>)
    ensures After(s, a + b) == After(After(s, a), b)
    decreases |a|
  {
    if a == [] {
      assert a + b == b;
    } else {
      assert (a + b)[1..] == a[1..] + b;
      AfterConcat(Turn(s, a[0]), a[1..], b);
    }
  }

  // ---------------------------------------------------------------- once, with one answer

  /** Every function runs at most once, and a finished call has had its function run exactly
      once. */
  lemma RunsOnce(calls: seq<nat>, functions: nat, schedule: seq<Choice>, t: nat)
    requires Program(calls, functions) && t < |calls|
    ensures var s := After(Initial(calls, functions), schedule);
      && |s.stacks| == |calls| && |s.cells| == functions
      && (forall fn: nat | fn < functions :: |s.cells[fn].runs| <= 1)
      && (Over(s.stacks[t]) ==> calls[t] < functions && |s.cells[calls[t]].runs| == 1)
  {
    FromStart(calls, functions, schedule);
    var s := After(Initial(calls, functions), schedule);
    assert StackOk(s, t);
    forall fn: nat | fn < functions ensures |s.cells[fn].runs| <= 1 { assert CellOk(s, fn); }
  }

  /** Every finished call has the answer of the single run, so two callers of a function have
      the same one, exactly unless the function was interrupted in one of the two. */
  lemma SameAnswer(calls: seq<nat>, functions: nat, schedule: seq<Choice>, t: nat, u: nat)
    requires Program(calls, functions) && t < |calls| && u < |calls| && t != u && calls[t] == calls[u]
    requires var s := After(Initial(calls, functions), schedule);
      |s.stacks| == |calls| && Over(s.stacks[t]) && Over(s.stacks[u])
    ensures var s := After(Initial(calls, functions), schedule);
      && calls[t] < |s.cells| && |s.cells[calls[t]].runs| == 1
      && var run := s.cells[calls[t]].runs[0];
      && s.stacks[t][0].pc.answer == AnswerFor(t, run) && s.stacks[u][0].pc.answer == AnswerFor(u, run)
      && (s.stacks[t][0].pc.answer == s.stacks[u][0].pc.answer
          <==> !run.result.Interrupted? || run.caller !in [t, u])
  {
    FromStart(calls, functions, schedule);
    var s := After(Initial(calls, functions), schedule);
    assert StackOk(s, t) && StackOk(s, u);
  }

  /** The functions only end in these ways. */
  ghost predicate Among(schedule: seq<Choice>, results: set<Result>) {
    forall c | c in schedule :: c.a.End? ==> c.a.r in results
  }

  ghost predicate Agree(s: State) {
    forall t: nat, u: nat | t < |s.stacks| && u < |s.stacks| && Over(s.stacks[t]) && Over(s.stacks[u]) ::
      s.stacks[t][0].fn == s.stacks[u][0].fn ==> s.stacks[t][0].pc.answer == s.stacks[u][0].pc.answer
  }

  ghost predicate CellsAmong(s: State, results: set<Result>) {
    forall fn: nat, ran | fn < |s.cells| && ran in s.cells[fn].runs :: ran.result in results
  }

  lemma {:induction false} RunsAmong(s: State, schedule: seq<Choice>, results: set<Result>)
    requires Among(schedule, results) && CellsAmong(s, results)
    ensures CellsAmong(After(s, schedule), results)
    decreases |schedule|
  {
    if schedule != [] {
      assert schedule[0] in schedule && forall c | c in schedule[1..] :: c in schedule;
      RunsAmong(Turn(s, schedule[0]), schedule[1..], results);
    }
  }

  lemma AnswersAgree(calls: seq<nat>, functions: nat, schedule: seq<Choice>, results: set<Result>)
    requires Program(calls, functions) && Among(schedule, results) && forall r | r in results :: !r.Interrupted?
    ensures Agree(After(Initial(calls, functions), schedule))
  {
    var s := After(Initial(calls, functions), schedule);
    FromStart(calls, functions, schedule);
    RunsAmong(Initial(calls, functions), schedule, results);
    forall t: nat, u: nat | t < |s.stacks| && u < |s.stacks| && Over(s.stacks[t]) && Over(s.stacks[u])
      ensures s.stacks[t][0].fn == s.stacks[u][0].fn ==> s.stacks[t][0].pc.answer == s.stacks[u][0].pc.answer
    {
      assert StackOk(s, t) && StackOk(s, u);
      var cell := s.cells[s.stacks[t][0].fn];
      assert cell.runs[0] in cell.runs;
    }
  }

  /** The only frame of a caller moves on. */
  lemma GoAlone(s: State, t: nat, fn: nat, pc: Pc, next: Pc)
    requires Known(s, t) && s.stacks[t] == [Frame(fn, pc)]
    ensures Go(s, t, next) == s.(stacks := s.stacks[t := [Frame(fn, next)]])
  {
    assert [Frame(fn, pc)][0 := Frame(fn, next)] == [Frame(fn, next)];
  }

  /** A caller that is not disturbed runs its function to its end. */
  lemma RunsToEnd(s: State, t: nat, fn: nat, r: Result)
    requires t < |s.stacks| && fn < |s.cells| && s.stacks[t] == [Frame(fn, FirstTest)]
    requires s.owner.None? && !s.cells[fn].isDone
    ensures
      var c := Choice(t, End(r));
      Turn(Turn(Turn(Turn(Turn(s, c), c), c), c), c)
      == State(s.stacks[t := [Frame(fn, Leave(r))]], s.cells[fn := Store(s.cells[fn], t, r).(isDone := true)], None)
  {
    var c, stored := Choice(t, End(r)), Store(s.cells[fn], t, r);
    var s1 := s.(stacks := s.stacks[t := [Frame(fn, AcquireMutex)]]);
    var s2 := s.(stacks := s.stacks[t := [Frame(fn, SecondTest)]], owner := Some(t));
    var s3 := s.(stacks := s.stacks[t := [Frame(fn, InFunction)]], owner := Some(t));
    var s4 := State(s.stacks[t := [Frame(fn, MarkDone(r))]], s.cells[fn := stored], Some(t));
    GoAlone(s, t, fn, FirstTest, AcquireMutex);
    GoAlone(s1, t, fn, AcquireMutex, SecondTest);
    GoAlone(s2, t, fn, SecondTest, InFunction);
    GoAlone(s3, t, fn, InFunction, MarkDone(r));
    GoAlone(s4, t, fn, MarkDone(r), Leave(r));
    assert Turn(s, c) == s1;
    assert Turn(s1, c) == s2;
    assert Turn(s2, c) == s3;
    assert Turn(s3, c) == s4;
  }

  lemma Twice(s: State, c: Choice)
    ensures After(s, [c]) == Turn(s, c) && After(s, [c, c]) == Turn(Turn(s, c), c)
  {
    assert [c][1..] == [] && [c, c][1..] == [c];
    assert After(Turn(s, c), [c]) == Turn(Turn(s, c), c);
  }

  lemma Five(s: State, c: Choice)
    ensures After(s, [c, c, c, c, c]) == Turn(Turn(Turn(Turn(Turn(s, c), c), c), c), c)
  {
    assert [c, c] + ([c, c] + [c]) == [c, c, c, c, c];
    AfterConcat(s, [c, c], [c, c] + [c]);
    AfterConcat(After(s, [c, c]), [c, c], [c]);
    Twice(s, c);
    Twice(Turn(Turn(s, c), c), c);
    Twice(Turn(Turn(Turn(Turn(s, c), c), c), c), c);
  }

  /** A run in which the first caller is interrupted: the second one is told None. */
  lemma InterruptIsNotShared(e: int)
    ensures
      var c, d := Choice(0, End(Interrupted(e))), Choice(1, End(Interrupted(e)));
      var s := After(Initial([0, 0], 1), [c, c, c, c, c] + [d, d]);
      s.stacks == [[Frame(0, Finished(Interrupt(e)))], [Frame(0, Finished(NoValue))]]
  {
    var c, d := Choice(0, End(Interrupted(e))), Choice(1, End(Interrupted(e)));
    var s := Initial([0, 0], 1);
    var first := [Frame(0, Finished(Interrupt(e)))];
    RunsToEnd(s, 0, 0, Interrupted(e));
    Five(s, c);
    var s5 := After(s, [c, c, c, c, c]);
    assert s5.stacks == [first, [Frame(0, FirstTest)]];
    GoAlone(s5, 1, 0, FirstTest, Report);
    var s6 := Turn(s5, d);
    assert s6 == s5.(stacks := [first, [Frame(0, Report)]]);
    GoAlone(s6, 1, 0, Report, Finished(NoValue));
    Twice(s5, d);
    AfterConcat(s, [c, c, c, c, c], [d, d]);
  }

  /** All finished calls of a function agree, in every interleaving of any callers of any
      functions, if and only if no function can end with an interrupt. */
  lemma AgreeExactlyIfNeverInterrupted(results: set<Result>)
    ensures
      (forall calls: seq<nat>, functions: nat, schedule: seq<Choice> ::
         Program(calls, functions) && Among(schedule, results) ==> Agree(After(Initial(calls, functions), schedule)))
      <==> forall r | r in results :: !r.Interrupted?
  {
    if forall r | r in results :: !r.Interrupted? {
      forall calls: seq<nat>, functions: nat, schedule: seq<Choice> | Program(calls, functions) && Among(schedule, results)
        ensures Agree(After(Initial(calls, functions), schedule))
      {
        AnswersAgree(calls, functions, schedule, results);
      }
    } else {
      var r :| r in results && r.Interrupted?;
      InterruptIsNotShared(r.error);
      var c, d := Choice(0, End(r)), Choice(1, End(r));
      var calls: seq<nat> := [0, 0];
      assert Program(calls, 1) && Among([c, c, c, c, c] + [d, d], results);
      var s := After(Initial(calls, 1), [c, c, c, c, c] + [d, d]);
      assert Over(s.stacks[0]) && Over(s.stacks[1]);
      assert !Agree(s);
    }
  }

  // ---------------------------------------------------------------- nested calls

  /** The step makes a function that runs call a function that is not done yet. */
  predicate CallsUndone(s: State, c: Choice) {
    && Enabled(s, c.t) && Top(s.stacks[c.t]).pc.InFunction?
    && c.a.Invoke? && c.a.fn < |s.cells| && !s.cells[c.a.fn].isDone
  }

  predicate MadeNestedCall(s: State, schedule: seq<Choice>)
    decreases |schedule|
  {
    schedule != [] && (CallsUndone(s, schedule[0]) || MadeNestedCall(Turn(s, schedule[0]), schedule[1..]))
  }

  /** The caller waits, or is about to wait, for the mutex that it holds itself. */
  predicate Hopeless(s: State, t: nat) {
    && t < |s.stacks| && |s.stacks[t]| == 2 && s.stacks[t][1].fn < |s.cells|
    && s.stacks[t][0].pc.InFunction?
    && (s.stacks[t][1].pc.AcquireMutex? || (s.stacks[t][1].pc.FirstTest? && !s.cells[s.stacks[t][1].fn].isDone))
  }

  ghost predicate SomeHopeless(s: State) {
    exists t: nat :: Hopeless(s, t)
  }

  /** While a function runs nobody else gets to mark a function as done. */
  lemma StaysHopeless(s: State, c: Choice, t: nat)
    requires Inv(s) && Hopeless(s, t)
    ensures Hopeless(Turn(s, c), t)
  {
    assert StackOk(s, t);
    if c.t < |s.stacks| { assert StackOk(s, c.t); }
  }

  lemma {:induction false} HopelessForEver(s: State, calls: seq<nat>, functions: nat, schedule: seq<Choice>, t: nat)
    requires Inv(s) && Runs(s, calls, functions) && Hopeless(s, t)
    ensures Hopeless(After(s, schedule), t)
    decreases |schedule|
  {
    if schedule != [] {
      StaysHopeless(s, schedule[0], t);
      Always(s, calls, functions, [schedule[0]]);
      assert [schedule[0]][1..] == [] && After(s, [schedule[0]]) == Turn(s, schedule[0]);
      HopelessForEver(Turn(s, schedule[0]), calls, functions, schedule[1..], t);
    }
  }

  /** A caller becomes hopeless by a nested call and by nothing else. */
  lemma HopelessByNestedCall(s: State, c: Choice, t: nat)
    requires Inv(s)
    ensures Hopeless(Turn(s, c), t) <==> Hopeless(s, t) || (c.t == t && CallsUndone(s, c))
  {
    if Hopeless(s, t) { StaysHopeless(s, c, t); }
    if c.t < |s.stacks| { assert StackOk(s, c.t); }
    if t < |s.stacks| { assert StackOk(s, t); }
  }

  lemma {:induction false} HopelessExactly(s: State, calls: seq<nat>, functions: nat, schedule: seq<Choice>)
    requires Inv(s) && Runs(s, calls, functions)
    ensures SomeHopeless(After(s, schedule)) <==> SomeHopeless(s) || MadeNestedCall(s, schedule)
    decreases |schedule|
  {
    if schedule == [] {
      assert After(s, schedule) == s;
    } else {
      var s' := Turn(s, schedule[0]);
      Always(s, calls, functions, [schedule[0]]);
      assert [schedule[0]][1..] == [] && After(s, [schedule[0]]) == s';
      HopelessExactly(s', calls, functions, schedule[1..]);
      forall t: nat ensures Hopeless(s', t) <==> Hopeless(s, t) || (schedule[0].t == t && CallsUndone(s, schedule[0])) {
        HopelessByNestedCall(s, schedule[0], t);
      }
      if CallsUndone(s, schedule[0]) {
        assert Hopeless(s', schedule[0].t);
      }
      assert SomeHopeless(s') <==> SomeHopeless(s) || CallsUndone(s, schedule[0]);
    }
  }

  ghost predicate AllOver(s: State) {
    forall t: nat | t < |s.stacks| :: Over(s.stacks[t])
  }

  /** All calls can still come to an end. */
  ghost predicate CanEnd(s: State) {
    exists later :: AllOver(After(s, later))
  }

  /** While nobody is hopeless, some caller can go on. */
  lemma SomebodyCan(s: State)
    requires Inv(s) && !AllOver(s) && !SomeHopeless(s)
    ensures exists t: nat :: Enabled(s, t)
  {
    var t: nat :| t < |s.stacks| && !Over(s.stacks[t]);
    assert StackOk(s, t) && !Hopeless(s, t);
    if !Enabled(s, t) {
      var u := s.owner.value;
      assert StackOk(s, u) && !Hopeless(s, u);
      assert Enabled(s, u);
    }
  }

  // How far the callers still have to go when no function calls another one.

  function Left(pc: Pc): nat {
    match pc
    case FirstTest => 6 case AcquireMutex => 5 case SecondTest => 4 case InFunction => 3
    case MarkDone(_) => 2 case Report => 1 case Finished(_) => 0
  }

  function LeftOf(stack: seq<Frame>): nat {
    if stack == [] then 0 else LeftOf(stack[..|stack| - 1]) + Left(Top(stack).pc) + 1
  }

  function TotalLeft(stacks: seq<seq<Frame>>): nat {
    if stacks == [] then 0 else TotalLeft(stacks[..|stacks| - 1]) + LeftOf(stacks[|stacks| - 1])
  }

  lemma {:induction false} TotalOfUpdate(stacks: seq<seq<Frame>>, t: nat, stack: seq<Frame>)
    requires t < |stacks|
    ensures TotalLeft(stacks[t := stack]) == TotalLeft(stacks) - LeftOf(stacks[t]) + LeftOf(stack)
  {
    var init := stacks[..|stacks| - 1];
    if t < |stacks| - 1 {
      TotalOfUpdate(init, t, stack);
      assert stacks[t := stack][..|stacks| - 1] == init[t := stack];
    } else {
      assert stacks[t := stack][..|stacks| - 1] == init;
    }
  }

  lemma LeftOfTop(stack: seq<Frame>, f: Frame)
    requires stack != []
    ensures LeftOf(stack[|stack| - 1 := f]) == LeftOf(stack) - Left(Top(stack).pc) + Left(f.pc)
  {
    assert stack[|stack| - 1 := f][..|stack| - 1] == stack[..|stack| - 1];
  }

  lemma EndGoesOn(s: State, t: nat, r: Result)
    requires Enabled(s, t)
    ensures TotalLeft(Step(s, t, End(r)).stacks) < TotalLeft(s.stacks)
  {
    var stack := s.stacks[t];
    var stack' := StackAfter(s, t, r);
    TotalOfUpdate(s.stacks, t, stack');
    if !Top(stack).pc.Finished? {
      LeftOfTop(stack, Top(stack'));
    }
  }

  /** What a step leaves of the calls of its caller. */
  lemma StackAfter(s: State, t: nat, r: Result) returns (stack': seq<Frame>)
    requires Enabled(s, t)
    ensures Step(s, t, End(r)).stacks == s.stacks[t := stack']
    ensures var stack := s.stacks[t];
      if Top(stack).pc.Finished? then stack' == stack[..|stack| - 1]
      else stack' != [] && Left(Top(stack').pc) < Left(Top(stack).pc) && stack' == stack[|stack| - 1 := Top(stack')]
  {
    stack' := Step(s, t, End(r)).stacks[t];
  }

  lemma {:induction false} CanFinish(s: State)
    requires Inv(s) && !SomeHopeless(s)
    ensures CanEnd(s)
    decreases TotalLeft(s.stacks)
  {
    if AllOver(s) {
      assert After(s, []) == s;
    } else {
      SomebodyCan(s);
      var t: nat :| Enabled(s, t);
      var c := Choice(t, End(Returned(0)));
      TurnInv(s, c);
      EndGoesOn(s, t, Returned(0));
      forall u: nat ensures !Hopeless(Turn(s, c), u) { HopelessByNestedCall(s, c, u); }
      CanFinish(Turn(s, c));
      var later :| AllOver(After(Turn(s, c), later));
      assert ([c] + later)[1..] == later;
      assert AllOver(After(s, [c] + later));
    }
  }

  /** After any schedule all calls can still come to an end, if and only if no function has
      called, while it ran, a function that was not done. */
  lemma FinishesExactly(calls: seq<nat>, functions: nat, schedule: seq<Choice>)
    requires Program(calls, functions)
    ensures var s := Initial(calls, functions);
      CanEnd(After(s, schedule)) <==> !MadeNestedCall(s, schedule)
  {
    var s := Initial(calls, functions);
    FromStart(calls, functions, schedule);
    FromStart(calls, functions, []);
    HopelessExactly(s, calls, functions, schedule);
    assert !SomeHopeless(s);
    var now := After(s, schedule);
    if MadeNestedCall(s, schedule) {
      var t: nat :| Hopeless(now, t);
      forall later ensures !AllOver(After(now, later)) {
        HopelessForEver(now, calls, functions, later, t);
      }
    } else {
      CanFinish(now);
    }
  }

  /** The functions only call each other along these edges. */
  ghost predicate Follows(calls: seq<nat>, schedule: seq<Choice>, edges: set<(nat, nat)>) {
    forall c | c in schedule :: c.a.Invoke? && c.t < |calls| ==> (calls[c.t], c.a.fn) in edges
  }

  /** In every interleaving all calls can come to an end, if and only if none of the functions
      that are called calls a wrapped function. */
  lemma SafeExactlyWithoutNesting(calls: seq<nat>, functions: nat, edges: set<(nat, nat)>)
    requires Program(calls, functions)
    ensures
      (forall schedule :: Follows(calls, schedule, edges) ==> CanEnd(After(Initial(calls, functions), schedule)))
      <==> forall f, g | (f, g) in edges :: f !in calls || g >= functions
  {
    var s := Initial(calls, functions);
    if forall f, g | (f, g) in edges :: f !in calls || g >= functions {
      forall schedule | Follows(calls, schedule, edges)
        ensures CanEnd(After(s, schedule))
      {
        FromStart(calls, functions, []);
        NeverNested(s, calls, functions, schedule, edges);
        FinishesExactly(calls, functions, schedule);
      }
    } else {
      var f, g :| (f, g) in edges && f in calls && g < functions;
      var t: nat :| t < |calls| && calls[t] == f;
      NestedCallHangs(calls, functions, t, g);
      FinishesExactly(calls, functions, NestedCall(t, g));
      assert Follows(calls, NestedCall(t, g), edges);
    }
  }

  lemma {:induction false} NeverNested(s: State, calls: seq<nat>, functions: nat, schedule: seq<Choice>, edges: set<(nat, nat)>)
    requires Inv(s) && Runs(s, calls, functions) && Follows(calls, schedule, edges)
    requires forall f, g | (f, g) in edges :: f !in calls || g >= functions
    ensures !MadeNestedCall(s, schedule)
    decreases |schedule|
  {
    if schedule != [] {
      var c := schedule[0];
      assert c in schedule && forall x | x in schedule[1..] :: x in schedule;
      Always(s, calls, functions, [c]);
      assert [c][1..] == [] && After(s, [c]) == Turn(s, c);
      NeverNested(Turn(s, c), calls, functions, schedule[1..], edges);
    }
  }

  /** The first caller to come runs its function, which calls another one. */
  function NestedCall(t: nat, g: nat): seq<Choice> {
    var c := Choice(t, Invoke(g));
    [c, c] + [c, c]
  }

  lemma NestedCallHangs(calls: seq<nat>, functions: nat, t: nat, g: nat)
    requires Program(calls, functions) && t < |calls| && g < functions
    ensures MadeNestedCall(Initial(calls, functions), NestedCall(t, g))
  {
    var c, s, fn := Choice(t, Invoke(g)), Initial(calls, functions), calls[t];
    assert fn in calls;
    GoAlone(s, t, fn, FirstTest, AcquireMutex);
    var s1 := Turn(s, c);
    GoAlone(s1, t, fn, AcquireMutex, SecondTest);
    var s2 := Turn(s1, c);
    GoAlone(s2, t, fn, SecondTest, InFunction);
    var s3 := Turn(s2, c);
    assert s3.stacks[t] == [Frame(fn, InFunction)];
    assert CallsUndone(s3, c);
    var schedule := NestedCall(t, g);
    assert schedule[1..] == [c, c, c] && [c, c, c][1..] == [c, c] && [c, c][1..] == [c];
    assert MadeNestedCall(s3, [c]);
    assert MadeNestedCall(s2, [c, c]);
    assert MadeNestedCall(s1, [c, c, c]);
  }
}
