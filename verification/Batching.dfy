/** Collecting items into batches: `Batcher`, which its caller flushes, and `AsyncBatcher`,
    whose run loop hands batches to a handler while other threads add items. */
module Batching {
  import opened Sequences
  import opened PyDict

  function Flat<T>(batches: seq<seq<T>>): seq<T> {
    if batches == [] then [] else Flat(batches[..|batches| - 1]) + batches[|batches| - 1]
  }

  // ---------------------------------------------------------------- Batcher

  /** `not self.max_count`. */
  predicate NoLimit(maxCount: Option<nat>) {
    maxCount.None? || maxCount.value == 0
  }

  class Batcher<T> {
    const maxCount: Option<nat>
    const maxWindow: Option<real>
    var triggered: bool
    var lastBatchTime: real
    var batch: seq<T>
    ghost var added: seq<T>    // everything ever added
    ghost var flushed: seq<T>  // everything ever returned by flush

    /** Nothing is lost, invented or reordered. */
    ghost predicate Valid()
      reads this
    {
      added == flushed + batch
    }

    /** The policy asks for a flush: enough items, enough time, or no limits at all. */
    ghost predicate Policy(now: real)
      reads this
    {
      || (maxCount.Some? && |batch| >= maxCount.value)
      || (maxWindow.Some? && now - lastBatchTime >= maxWindow.value)
      || ((maxCount.None? || maxCount.value == 0) && (maxWindow.None? || maxWindow.value == 0.0))
    }

    constructor (maxCount: Option<nat>, maxWindow: Option<real>, now: real)
      ensures Valid() && batch == [] && added == [] && !triggered && lastBatchTime == now
      ensures this.maxCount == maxCount && this.maxWindow == maxWindow
    {
      this.maxCount, this.maxWindow := maxCount, maxWindow;
      triggered, lastBatchTime, batch := false, now, [];
      added, flushed := [], [];
    }

    method CheckBatchPolicy(now: real) returns (r: bool)
      modifies this`triggered
      ensures r == triggered == (old(triggered) || Policy(now))
    {
      if maxCount.Some? && |batch| >= maxCount.value {
        triggered := true;
      } else if maxWindow.Some? && now - lastBatchTime >= maxWindow.value {
        triggered := true;
      } else if NoLimit(maxCount) && (maxWindow.None? || maxWindow.value == 0.0) {
        triggered := true;
      }
      return triggered;
    }

    /** Once the policy has triggered it stays triggered until the next flush. */
    method Add(items: seq<T>, now: real) returns (r: bool)
      requires Valid()
      modifies this`triggered, this`batch, this`added
      ensures Valid() && batch == old(batch) + items && added == old(added) + items
      ensures r == triggered == (old(triggered) || Policy(now))
    {
      batch := batch + items;
      added := added + items;
      if triggered {
        return true;
      }
      r := CheckBatchPolicy(now);
    }

    /** A partial flush returns at most `maxCount` items from the front; the rest stays. The
        trigger is then what the policy says of the rest. */
    method Flush(partial: bool, now: real) returns (result: seq<T>)
      requires Valid()
      modifies this`triggered, this`batch, this`flushed, this`lastBatchTime
      ensures Valid() && result + batch == old(batch) && flushed == old(flushed) + result
      ensures if partial && maxCount.Some? && maxCount.value > 0
              then |result| == if maxCount.value < |old(batch)| then maxCount.value else |old(batch)|
              else batch == []
      ensures lastBatchTime == now && triggered == Policy(now)
    {
      if !partial || NoLimit(maxCount) {
        result := batch;
        batch := [];
      } else {
        var size := if maxCount.value < |batch| then maxCount.value else |batch|;
        result := batch[..size];
        batch := batch[size..];
      }
      flushed := flushed + result;
      lastBatchTime := now;
      triggered := false;
      var _ := CheckBatchPolicy(now);
    }
  }

  // ---------------------------------------------------------------- AsyncBatcher

  /** Where the run loop is. Everything between two waits for the lock is one step. */
  datatype Runner =
    | AtTop       // while not self._closed
    | Entering    // about to take the lock and wait
    | Waiting     // inside self._flush_lock.wait, the lock is free
    | Handling    // inside self.handler(batch), the lock is free
    | Exited

  /** The batcher, with what has happened so far: the items accepted by `add` in the order in
      which they got the lock, the batches handed over, and the situation at `close`. */
  datatype State<T> = State(
    buffer: seq<T>,
    closed: bool,
    runner: Runner,
    inFlight: seq<T>,
    handled: seq<seq<T>>,
    accepted: seq<T>,
    atClose: Option<(Runner, seq<T>)>,
    batchesAfterClose: nat)

  datatype Event<T> = Add(item: T) | Close | Run

  function Initial<T>(): State<T> {
    State([], false, AtTop, [], [], [], None, 0)
  }

  /** The section of the run loop under the lock, after the wait: any wake-up will do, be it
      a notification or the timeout. */
  function TakeBatch<T>(s: State<T>): State<T> {
    if s.buffer == [] then s.(runner := AtTop)
    else s.(runner := Handling, inFlight := s.buffer, buffer := [],
            batchesAfterClose := s.batchesAfterClose + if s.closed then 1 else 0)
  }

  function Turn<T>(s: State<T>, e: Event<T>): State<T> {
    match e
    case Add(item) =>
      if s.closed then s else s.(buffer := s.buffer + [item], accepted := s.accepted + [item])
    case Close =>
      if s.closed then s else s.(closed := true, atClose := Some((s.runner, s.buffer)))
    case Run =>
      match s.runner {
        case AtTop => s.(runner := if s.closed then Exited else Entering)
        case Entering => s.(runner := Waiting)
        case Waiting => TakeBatch(s)
        case Handling => s.(runner := AtTop, handled := s.handled + [s.inFlight], inFlight := [])
        case Exited => s
      }
  }

  /** Any interleaving of adders, closers and the run loop. */
  function After<T>(events: seq<Event<T>>): State<T> {
    if events == [] then Initial()
    else Turn(After(events[..|events| - 1]), events[|events| - 1])
  }

  /** The loop has passed its test, so one more look at the buffer is certain. */
  predicate WillLookAgain(runner: Runner) {
    runner == Entering || runner == Waiting
  }

  ghost predicate Inv<T>(s: State<T>) {
    && Flat(s.handled) + s.inFlight + s.buffer == s.accepted
    && (s.runner != Handling ==> s.inFlight == [])
    && (s.closed <==> s.atClose.Some?)
    && (s.runner == Exited ==> s.closed)
    && (!s.closed ==> s.batchesAfterClose == 0)
    && (s.closed ==> SinceClose(s, s.atClose.value.0, s.atClose.value.1))
  }

  /** After the close nothing is added any more, and the loop takes at most one batch: only
      if it was already past its test when the close came. */
  ghost predicate SinceClose<T>(s: State<T>, runner: Runner, buffer: seq<T>) {
    && s.batchesAfterClose <= 1
    && runner != Exited
    && (if WillLookAgain(runner) && !WillLookAgain(s.runner) then s.buffer == [] else s.buffer == buffer)
    && (s.batchesAfterClose == 1 ==> WillLookAgain(runner) && !WillLookAgain(s.runner))
    && (!WillLookAgain(runner) ==> !WillLookAgain(s.runner))
  }

  lemma AddInv<T>(s: State<T>, e: Event<T>)
    requires Inv(s) && e.Add?
    ensures Inv(Turn(s, e))
  {
    Assoc(Flat(s.handled) + s.inFlight, s.buffer, [e.item]);
  }

  lemma TakeInv<T>(s: State<T>)
    requires Inv(s) && s.runner == Waiting
    ensures Inv(TakeBatch(s))
  {
    assert Flat(s.handled) + [] + s.buffer == Flat(s.handled) + s.buffer + [];
  }

  lemma HandleInv<T>(s: State<T>, e: Event<T>)
    requires Inv(s) && e.Run? && s.runner == Handling
    ensures Inv(Turn(s, e))
  {
    assert (s.handled + [s.inFlight])[..|s.handled|] == s.handled;
    assert Flat(s.handled + [s.inFlight]) + [] == Flat(s.handled) + s.inFlight;
  }

  lemma TurnInv<T>(s: State<T>, e: Event<T>)
    requires Inv(s)
    ensures Inv(Turn(s, e))
  {
    if e.Add? {
      AddInv(s, e);
    } else if e.Run? && s.runner == Handling {
      HandleInv(s, e);
    } else if e.Run? && s.runner == Waiting {
      TakeInv(s);
    }
  }

  lemma {:induction false} AlwaysInv<T>(events: seq<Event<T>>)
    ensures Inv(After(events))
  {
    if events != [] {
      AlwaysInv(events[..|events| - 1]);
      TurnInv(After(events[..|events| - 1]), events[|events| - 1]);
    }
  }

  /** Nothing is lost, duplicated or reordered: the batches handled, the batch in flight and
      the buffer together are the accepted items in lock order. */
  lemma Conservation<T>(events: seq<Event<T>>)
    ensures var s := After(events); Flat(s.handled) + s.inFlight + s.buffer == s.accepted
  {
    AlwaysInv(events);
  }

  /** At most one batch is taken after `close`. */
  lemma OneBatchAfterClose<T>(events: seq<Event<T>>)
    ensures After(events).batchesAfterClose <= 1
  {
    AlwaysInv(events);
  }

  /** What `close` promises, one last flush, exactly holds like this: the loop ends with the
      items unhandled that were in the buffer at the close, unless the close came while the
      loop was between its test and its flush. */
  lemma LeftOver<T>(events: seq<Event<T>>)
    requires After(events).runner == Exited
    ensures var s := After(events);
      && s.atClose.Some?
      && var (runner, buffer) := s.atClose.value;
         s.buffer == if WillLookAgain(runner) then [] else buffer
  {
    AlwaysInv(events);
  }

  /** So everything accepted has been handled if and only if the close found the loop between
      its test and its flush, or the buffer empty. */
  lemma DrainedIff<T>(events: seq<Event<T>>)
    requires After(events).runner == Exited
    ensures var s := After(events);
      && s.atClose.Some?
      && (Flat(s.handled) == s.accepted <==> WillLookAgain(s.atClose.value.0) || s.atClose.value.1 == [])
  {
    AlwaysInv(events);
    LeftOver(events);
    var s := After(events);
    assert Flat(s.handled) + [] + s.buffer == Flat(s.handled) + s.buffer;
    assert |Flat(s.handled) + s.buffer| == |Flat(s.handled)| + |s.buffer|;
    if s.buffer == [] {
      assert Flat(s.handled) + s.buffer == Flat(s.handled);
    }
  }

  /** How many steps the run loop gets. */
  function Runs<T>(events: seq<Event<T>>): nat {
    if events == [] then 0 else Runs(events[..|events| - 1]) + if events[|events| - 1].Run? then 1 else 0
  }

  /** The steps of a closed loop before its end. */
  function StepsToExit(runner: Runner): nat {
    match runner case Exited => 0 case AtTop => 1 case Handling => 2 case Waiting => 3 case Entering => 4
  }

  lemma StepEnds<T>(s: State<T>, e: Event<T>)
    requires s.closed
    ensures Turn(s, e).closed
    ensures s.runner != Exited ==> StepsToExit(Turn(s, e).runner) <= StepsToExit(s.runner) - if e.Run? then 1 else 0
    ensures s.runner == Exited ==> Turn(s, e).runner == Exited
  {
  }

  /** Once closed, the loop ends after at most four steps of its own, whatever else happens. */
  lemma {:induction false} LoopEnds<T>(events: seq<Event<T>>, more: seq<Event<T>>)
    requires After(events).closed
    ensures var s := After(events + more);
      && s.closed && (Runs(more) >= 4 ==> s.runner == Exited)
      && (s.runner == Exited || StepsToExit(s.runner) + Runs(more) <= 4)
    decreases |more|
  {
    if more == [] {
      assert events + more == events;
    } else {
      var init := more[..|more| - 1];
      LoopEnds(events, init);
      assert events + more == events + init + [more[|more| - 1]];
      Snoc(events + init, more[|more| - 1]);
      StepEnds(After(events + init), more[|more| - 1]);
    }
  }

  /** The steps of the loop before the first `n` accepted items are handled. */
  function StepsToHandle<T>(s: State<T>, n: nat): nat {
    if |Flat(s.handled)| >= n then 0
    else if s.runner == Handling && |Flat(s.handled)| + |s.inFlight| >= n then 1
    else match s.runner
      case Waiting => 2 case Entering => 3 case AtTop => 4 case Handling => 5 case Exited => 0
  }

  lemma StepHandles<T>(s: State<T>, e: Event<T>, n: nat)
    requires Inv(s) && !Turn(s, e).closed && n <= |s.accepted| && StepsToHandle(s, n) > 0
    ensures StepsToHandle(Turn(s, e), n) <= StepsToHandle(s, n) - if e.Run? then 1 else 0
  {
    assert |Flat(s.handled) + s.inFlight + s.buffer| == |Flat(s.handled)| + |s.inFlight| + |s.buffer|;
    if e.Run? && s.runner == Handling {
      assert (s.handled + [s.inFlight])[..|s.handled|] == s.handled;
    }
  }

  lemma AddKeepsAccepted<T>(s: State<T>, e: Event<T>)
    ensures s.accepted <= Turn(s, e).accepted && (s.closed ==> Turn(s, e).closed)
    ensures |Flat(s.handled)| <= |Flat(Turn(s, e).handled)|
  {
    if e.Run? && s.runner == Handling {
      assert (s.handled + [s.inFlight])[..|s.handled|] == s.handled;
    }
  }

  /** Unless it is closed, whatever was accepted has been handled after five more steps of
      the loop, in the order of acceptance. */
  lemma {:induction false} HandledInTime<T>(events: seq<Event<T>>, more: seq<Event<T>>)
    requires !After(events + more).closed
    ensures var s, t := After(events), After(events + more);
      && s.accepted <= t.accepted
      && (Runs(more) >= 5 ==> s.accepted <= Flat(t.handled))
      && (|s.accepted| <= |Flat(t.handled)| || StepsToHandle(t, |s.accepted|) + Runs(more) <= 5)
    decreases |more|
  {
    var s, t, n := After(events), After(events + more), |After(events).accepted|;
    if more == [] {
      assert events + more == events;
    } else {
      var init, e := more[..|more| - 1], more[|more| - 1];
      assert events + more == events + init + [e];
      Snoc(events + init, e);
      AddKeepsAccepted(After(events + init), e);
      HandledInTime(events, init);
      AlwaysInv(events + init);
      if StepsToHandle(After(events + init), n) > 0 { StepHandles(After(events + init), e, n); }
    }
    Conservation(events + more);
    AlwaysInv(events + more);
  }

  /** An item added while the handler runs, followed by a close, is never handled. */
  lemma CloseDuringHandlerLosesItem<T>(x: T, y: T)
    ensures var s := After([Run] + [Run] + [Add(x)] + [Run] + [Add(y)] + [Close] + [Run] + [Run]);
      s.runner == Exited && s.handled == [[x]] && s.buffer == [y]
  {
    var none: seq<Event<T>> := [];
    Snoc(none, Run);
    var a := [Event<T>.Run] + [Run];
    Snoc<T>([Run], Run);
    Snoc(a, Add(x));
    Snoc(a + [Add(x)], Run);
    Snoc(a + [Add(x)] + [Run], Add(y));
    Snoc(a + [Add(x)] + [Run] + [Add(y)], Close);
    Snoc(a + [Add(x)] + [Run] + [Add(y)] + [Close], Run);
    Snoc(a + [Add(x)] + [Run] + [Add(y)] + [Close] + [Run], Run);
    assert After(a + [Add(x)] + [Run]).inFlight == [x];
  }

  lemma Snoc<T>(events: seq<Event<T>>, e: Event<T>)
    ensures After(events + [e]) == Turn(After(events), e)
    ensures events == [] ==> events + [e] == [e]
  {
  }

  // ---------------------------------------------------------------- the object

  /** The fields that the lock protects, with the methods that run under it. */
  class AsyncBatcher<T> {
    var buffer: seq<T>
    var closed: bool

    constructor ()
      ensures buffer == Initial<T>().buffer && closed == Initial<T>().closed
    {
      buffer, closed := [], false;
    }

    /** The shared part of a state. */
    ghost predicate Shows(s: State<T>)
      reads this
    {
      buffer == s.buffer && closed == s.closed
    }

    /** Raises, that is returns false, once the batcher is closed. */
    method Add(item: T, ghost s: State<T>) returns (ok: bool)
      requires Shows(s)
      modifies this
      ensures Shows(Turn(s, Event.Add(item))) && ok == !s.closed
    {
      if closed {
        return false;
      }
      buffer := buffer + [item];
      return true;
    }

    method Close(ghost s: State<T>)
      requires Shows(s)
      modifies this
      ensures Shows(Turn(s, Event.Close))
    {
      if closed {
        return;
      }
      closed := true;
    }

    /** The section of the run loop after the wait. */
    method Take(ghost s: State<T>) returns (batch: seq<T>)
      requires Shows(s) && s.runner == Waiting
      modifies this
      ensures Shows(Turn(s, Run))
      ensures if batch == [] then Turn(s, Run).runner == AtTop
              else Turn(s, Run).runner == Handling && Turn(s, Run).inFlight == batch
    {
      batch := buffer;
      buffer := [];
    }
  }
}
