/** `singleton_factory`: a factory whose result is kept in a cell and handed to all callers.
    The test under the lock asks whether the kept value is truthy, not whether it is set. */
module Singleton {
  import opened PyDict

  /** What the factory returns: any object with its truth value, or an exception. None is
      what an empty cell holds and is falsy. */
  datatype Object = Object(id: int, truthy: bool)
  datatype Made = Made(thing: Object) | MadeNone | Failed(error: int)

  datatype Caller =
    | FirstTest                      // if instance.is_set()
    | FastGet                        // return instance.get(), without the lock
    | Acquire                        // with lock
    | SecondTest                     //   if not instance
    | InFactory                      //   instance.set(factory())
    | LockedGet                      //   return instance.get()
    | Returned(value: Option<Object>)
    | Raised(error: int)

  datatype State = State(
    callers: seq<Caller>,
    cell: Option<Object>,
    owner: Option<nat>,
    made: seq<Option<Object>>)  // the values of all factory calls that returned

  function Initial(n: nat): State {
    State(seq(n, i => FirstTest), None, None, [])
  }

  function Go(s: State, t: nat, c: Caller): State
    requires t < |s.callers|
  {
    s.(callers := s.callers[t := c])
  }

  predicate Enabled(s: State, t: nat)
    requires t < |s.callers|
  {
    match s.callers[t]
    case Acquire => s.owner.None?
    case Returned(_) => false
    case Raised(_) => false
    case _ => true
  }

  predicate Truthy(cell: Option<Object>) {
    cell.Some? && cell.value.truthy
  }

  function Step(s: State, t: nat, m: Made): State
    requires t < |s.callers| && Enabled(s, t)
  {
    match s.callers[t]
    case FirstTest => Go(s, t, if s.cell.Some? then FastGet else Acquire)
    case FastGet => Go(s, t, Returned(s.cell))
    case Acquire => Go(s.(owner := Some(t)), t, SecondTest)
    case SecondTest => Go(s, t, if Truthy(s.cell) then LockedGet else InFactory)
    case InFactory =>
      match m {
        case Made(o) => Go(s.(cell := Some(o), made := s.made + [Some(o)]), t, LockedGet)
        case MadeNone => Go(s.(cell := None, made := s.made + [None]), t, LockedGet)
        case Failed(e) => Go(s.(owner := None), t, Raised(e))
      }
    case LockedGet => Go(s.(owner := None), t, Returned(s.cell))
  }

  datatype Choice = Choice(t: nat, m: Made)

  function Turn(s: State, c: Choice): State {
    if c.t < |s.callers| && Enabled(s, c.t) then Step(s, c.t, c.m) else s
  }

  function Run(n: nat, schedule: seq<Choice>): State {
    if schedule == [] then Initial(n) else Turn(Run(n, schedule[..|schedule| - 1]), schedule[|schedule| - 1])
  }

  predicate InLock(c: Caller) { c.SecondTest? || c.InFactory? || c.LockedGet? }

  /** A factory call that succeeds with an object that counts as false. */
  predicate Falsy(m: Made) {
    m.MadeNone? || (m.Made? && !m.thing.truthy)
  }

  function Kept(m: Made): Option<Object> {
    if m.Made? then Some(m.thing) else None
  }

  /** Every object that the factory returns is truthy. */
  ghost predicate OnlyTruthy(schedule: seq<Choice>) {
    forall c | c in schedule :: !Falsy(c.m)
  }

  ghost predicate CallerOk(s: State, t: nat)
    requires t < |s.callers|
  {
    var c := s.callers[t];
    && (InLock(c) ==> s.owner == Some(t))
    && (c.InFactory? ==> s.made == [])
    && (c.FastGet? || c.LockedGet? ==> s.cell.Some?)
    && (c.Returned? ==> s.cell.Some? && c.value == s.cell)
  }

  ghost predicate Inv(s: State) {
    && |s.made| <= 1
    && s.cell == (if s.made == [] then None else s.made[0])
    && (s.cell.Some? ==> s.cell.value.truthy)
    && (|s.made| == 1 ==> s.cell.Some?)
    && (s.owner.Some? ==> s.owner.value < |s.callers| && InLock(s.callers[s.owner.value]))
    && forall t: nat | t < |s.callers| :: CallerOk(s, t)
  }

  lemma StepInv(s: State, t: nat, m: Made)
    requires Inv(s) && t < |s.callers| && Enabled(s, t)
    requires !Falsy(m)
    ensures Inv(Step(s, t, m))
  {
    assert CallerOk(s, t);
    forall u: nat | u < |s.callers| ensures CallerOk(Step(s, t, m), u) { assert CallerOk(s, u); }
  }

  lemma {:induction false} AlwaysInv(n: nat, schedule: seq<Choice>)
    requires OnlyTruthy(schedule)
    ensures Inv(Run(n, schedule)) && |Run(n, schedule).callers| == n
  {
    if schedule != [] {
      var init, c := schedule[..|schedule| - 1], schedule[|schedule| - 1];
      assert c in schedule && forall x | x in init :: x in schedule;
      AlwaysInv(n, init);
      var s := Run(n, init);
      if c.t < |s.callers| && Enabled(s, c.t) { StepInv(s, c.t, c.m); }
    }
  }

  /** With truthy results the factory succeeds at most once, whatever the interleaving and
      however often it fails, and every caller that returns gets that one object. */
  lemma OneObject(n: nat, schedule: seq<Choice>, t: nat)
    requires OnlyTruthy(schedule) && t < n
    ensures var s := Run(n, schedule);
      && |s.made| <= 1 && |s.callers| == n
      && (s.callers[t].Returned? ==> |s.made| == 1 && s.callers[t].value == s.made[0] && s.made[0].Some?)
  {
    AlwaysInv(n, schedule);
    assert CallerOk(Run(n, schedule), t);
  }

  /** A caller that finds no object waits for the lock. */
  lemma Misses(s: State, c: Choice)
    requires c.t < |s.callers| && s.callers[c.t] == FirstTest && s.cell.None?
    ensures Turn(s, c) == Go(s, c.t, Acquire)
  {
  }

  /** A caller that gets the lock while the cell is falsy calls the factory. */
  lemma Enters(s: State, c: Choice)
    requires c.t < |s.callers| && s.callers[c.t] == Acquire && s.owner.None? && !Truthy(s.cell)
    ensures Turn(Turn(s, c), c) == Go(s.(owner := Some(c.t)), c.t, InFactory)
  {
    assert Turn(s, c) == Go(s.(owner := Some(c.t)), c.t, SecondTest);
  }

  /** It keeps what the factory returns, returns it and gives the lock back. */
  lemma Makes(s: State, c: Choice)
    requires c.t < |s.callers| && s.callers[c.t] == InFactory && s.owner == Some(c.t) && !c.m.Failed?
    ensures Turn(Turn(s, c), c)
         == Go(s.(cell := Kept(c.m), made := s.made + [Kept(c.m)], owner := None), c.t, Returned(Kept(c.m)))
  {
    assert Turn(s, c) == Go(s.(cell := Kept(c.m), made := s.made + [Kept(c.m)]), c.t, LockedGet);
  }

  /** A caller that waits for the free lock while the cell is falsy makes an object. */
  lemma MakesOne(s: State, c: Choice)
    requires c.t < |s.callers| && s.callers[c.t] == Acquire && s.owner.None? && !Truthy(s.cell) && !c.m.Failed?
    ensures Turn(Turn(Turn(Turn(s, c), c), c), c)
         == Go(s.(cell := Kept(c.m), made := s.made + [Kept(c.m)]), c.t, Returned(Kept(c.m)))
  {
    var inside := Go(s.(owner := Some(c.t)), c.t, InFactory);
    Enters(s, c);
    Makes(inside, c);
    assert inside.callers[c.t := Returned(Kept(c.m))] == s.callers[c.t := Returned(Kept(c.m))];
  }

  function FourTimes(c: Choice): seq<Choice> { [c, c] + [c, c] }

  lemma TwoMore(n: nat, schedule: seq<Choice>, c: Choice)
    ensures Run(n, schedule + [c, c]) == Turn(Turn(Run(n, schedule), c), c)
  {
    Snoc(n, schedule, c);
    Snoc(n, schedule + [c], c);
    assert schedule + [c, c] == schedule + [c] + [c];
  }

  lemma FourMore(n: nat, schedule: seq<Choice>, c: Choice)
    ensures Run(n, schedule + FourTimes(c)) == Turn(Turn(Turn(Turn(Run(n, schedule), c), c), c), c)
  {
    TwoMore(n, schedule, c);
    TwoMore(n, schedule + [c, c], c);
    assert schedule + FourTimes(c) == schedule + [c, c] + [c, c];
  }

  /** Two callers miss; the first one makes an object, and then the second one does. */
  function Race(m: Made, k: Made): seq<Choice> {
    [Choice(0, m), Choice(1, m)] + FourTimes(Choice(0, m)) + FourTimes(Choice(1, k))
  }

  lemma BothMiss(m: Made)
    ensures Run(2, [Choice(0, m), Choice(1, m)]) == State([Acquire, Acquire], None, None, [])
  {
    var none: seq<Choice> := [];
    Snoc(2, none, Choice(0, m));
    Snoc(2, [Choice(0, m)], Choice(1, m));
    assert none + [Choice(0, m)] == [Choice(0, m)];
    assert [Choice(0, m)] + [Choice(1, m)] == [Choice(0, m), Choice(1, m)];
    Misses(Initial(2), Choice(0, m));
    Misses(Go(Initial(2), 0, Acquire), Choice(1, m));
    assert Go(Go(Initial(2), 0, Acquire), 1, Acquire).callers == [Acquire, Acquire];
  }

  /** What the first one leaves behind. */
  function Between(m: Made): State {
    State([Returned(Kept(m)), Acquire], Kept(m), None, [Kept(m)])
  }

  lemma FirstMakes(m: Made)
    requires Falsy(m)
    ensures Run(2, [Choice(0, m), Choice(1, m)] + FourTimes(Choice(0, m))) == Between(m)
  {
    var s2 := State([Acquire, Acquire], None, None, []);
    BothMiss(m);
    FourMore(2, [Choice(0, m), Choice(1, m)], Choice(0, m));
    MakesOne(s2, Choice(0, m));
    assert s2.callers[0 := Returned(Kept(m))] == Between(m).callers && s2.made + [Kept(m)] == [Kept(m)];
  }

  /** Two callers that race for falsy objects each get their own. */
  lemma FalsyIsMadeTwice(m: Made, k: Made)
    requires Falsy(m) && Falsy(k)
    ensures Run(2, Race(m, k))
         == State([Returned(Kept(m)), Returned(Kept(k))], Kept(k), None, [Kept(m), Kept(k)])
  {
    FirstMakes(m);
    FourMore(2, [Choice(0, m), Choice(1, m)] + FourTimes(Choice(0, m)), Choice(1, k));
    MakesOne(Between(m), Choice(1, k));
    assert Between(m).callers[1 := Returned(Kept(k))] == [Returned(Kept(m)), Returned(Kept(k))];
    assert [Kept(m)] + [Kept(k)] == [Kept(m), Kept(k)];
  }

  ghost predicate Among(schedule: seq<Choice>, answers: set<Made>) {
    forall c | c in schedule :: c.m in answers
  }

  /** A factory is safe, that is it never succeeds twice in any interleaving of any number of
      callers, if and only if nothing that it can return is falsy. */
  lemma SafeExactlyIfTruthy(answers: set<Made>)
    ensures (forall n: nat, schedule: seq<Choice> :: Among(schedule, answers) ==> |Run(n, schedule).made| <= 1)
      <==> forall m | m in answers :: !Falsy(m)
  {
    if forall m | m in answers :: !Falsy(m) {
      forall n: nat, schedule: seq<Choice> | Among(schedule, answers) ensures |Run(n, schedule).made| <= 1 {
        AlwaysInv(n, schedule);
      }
    } else {
      var m :| m in answers && Falsy(m);
      FalsyIsMadeTwice(m, m);
      var schedule := Race(m, m);
      assert Among(schedule, answers) && |Run(2, schedule).made| == 2;
    }
  }

  lemma Snoc(n: nat, schedule: seq<Choice>, c: Choice)
    ensures Run(n, schedule + [c]) == Turn(Run(n, schedule), c)
  {
  }

  lemma {:induction false} NotYetCalled(n: nat, schedule: seq<Choice>, t: nat)
    requires t < n && forall c | c in schedule :: c.t != t
    ensures var s := Run(n, schedule); |s.callers| == n && s.callers[t] == FirstTest
  {
    if schedule != [] {
      var init, c := schedule[..|schedule| - 1], schedule[|schedule| - 1];
      assert c in schedule && forall x | x in init :: x in schedule;
      NotYetCalled(n, init, t);
    }
  }

  /** Whoever comes when an object is kept gets it in two steps: without the lock, whoever
      holds it, without the factory, and whether the object counts as true or not. */
  lemma LaterCallersDoNotWait(n: nat, schedule: seq<Choice>, c: Choice)
    requires c.t < n && forall x | x in schedule :: x.t != c.t
    requires Run(n, schedule).cell.Some?
    ensures var s := Run(n, schedule);
      |s.callers| == n && Run(n, schedule + [c] + [c]) == s.(callers := s.callers[c.t := Returned(s.cell)])
  {
    NotYetCalled(n, schedule, c.t);
    Snoc(n, schedule, c);
    Snoc(n, schedule + [c], c);
  }
}
