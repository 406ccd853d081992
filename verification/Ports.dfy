/** Timed port reservations. A port range and all ranges derived from it share one cache with
    a bounded number of entries, each with its own expiry. */
module Ports {
  import opened PyDict
  import opened Sequences

  datatype Port = Port(number: int, protocol: string)

  /** A successful reservation: the port is taken from `from` until just before `until`. */
  datatype Reservation = Reservation(port: Port, from: real, until: real)

  const DEFAULT_PORT_RESERVED_SECONDS := 6.0

  type Entries = seq<(Port, real)>

  // ---------------------------------------------------------------- the cache

  /** Expired entries are only removed from the front, up to the first live one. */
  function DropExpired(entries: Entries, now: real): Entries {
    if entries != [] && entries[0].1 <= now then DropExpired(entries[1..], now) else entries
  }

  function Without(entries: Entries, port: Port): Entries {
    if entries == [] then []
    else (if entries[0].0 == port then [] else [entries[0]]) + Without(entries[1..], port)
  }

  ghost predicate DistinctPorts(entries: Entries) {
    forall i, j | 0 <= i < j < |entries| :: entries[i].0 != entries[j].0
  }

  lemma {:induction false} AfterDrop(entries: Entries, now: real)
    ensures forall e | e in DropExpired(entries, now) :: e in entries
    ensures forall e | e in entries && e.1 > now :: e in DropExpired(entries, now)
    ensures DistinctPorts(entries) ==> DistinctPorts(DropExpired(entries, now))
    ensures |DropExpired(entries, now)| <= |entries|
    ensures DropExpired(entries, now) != [] ==> DropExpired(entries, now)[0].1 > now
  {
    if entries != [] && entries[0].1 <= now {
      AfterDrop(entries[1..], now);
    }
  }

  lemma {:induction false} AfterWithout(entries: Entries, port: Port)
    ensures forall e :: e in Without(entries, port) <==> e in entries && e.0 != port
    ensures DistinctPorts(entries) ==> DistinctPorts(Without(entries, port))
  {
    if entries != [] {
      AfterWithout(entries[1..], port);
      if DistinctPorts(entries) {
        var rest := Without(entries[1..], port);
        forall j | 0 <= j < |rest| ensures rest[j].0 != entries[0].0 {
          assert rest[j] in rest;
          var k :| 0 <= k < |entries[1..]| && entries[1..][k] == rest[j];
          assert entries[k + 1] == rest[j];
        }
      }
    }
  }

  lemma {:induction false} ShorterWithout(entries: Entries, port: Port)
    ensures |Without(entries, port)| <= |entries|
    ensures (exists e :: e in entries && e.0 == port) ==> |Without(entries, port)| < |entries|
  {
    if entries != [] {
      ShorterWithout(entries[1..], port);
      if e :| e in entries && e.0 == port && e != entries[0] {
        assert e in entries[1..];
      }
    }
  }

  ghost function PortsIn(entries: Entries): set<Port> {
    set e | e in entries :: e.0
  }

  lemma {:induction false} CountPorts(entries: Entries)
    requires DistinctPorts(entries)
    ensures |PortsIn(entries)| == |entries|
  {
    if entries != [] {
      var init, last := entries[..|entries| - 1], entries[|entries| - 1];
      CountPorts(init);
      assert PortsIn(entries) == PortsIn(init) + {last.0} by {
        assert entries == init + [last];
        assert last in entries;
      }
      assert last.0 !in PortsIn(init);
    }
  }

  lemma CountSubset<T>(a: set<T>, b: set<T>)
    requires a <= b
    ensures |a| <= |b|
  {
    if a != b {
      assert b == a + (b - a);
    }
  }

  ghost predicate InRange(entries: Entries, lo: int, hi: int) {
    DistinctPorts(entries) && forall e | e in entries :: lo <= e.0.number <= hi
  }

  // ---------------------------------------------------------------- the history

  /** The reservation of a port that counts: a later one replaces an earlier one. */
  ghost function Latest(log: seq<Reservation>, port: Port): (r: Option<Reservation>)
    ensures r.Some? ==> r.value in log && r.value.port == port
  {
    if log == [] then None
    else if log[|log| - 1].port == port then Some(log[|log| - 1])
    else Latest(log[..|log| - 1], port)
  }

  lemma LatestAppend(log: seq<Reservation>, r: Reservation, port: Port)
    ensures Latest(log + [r], port) == if r.port == port then Some(r) else Latest(log, port)
  {
    assert (log + [r])[..|log|] == log;
  }

  /** No reservation of the port lasts beyond `now`, judged by the history. */
  ghost predicate FreeIn(log: seq<Reservation>, port: Port, now: real) {
    var r := Latest(log, port);
    r.Some? ==> r.value.until <= now
  }

  ghost function PortsOf(log: seq<Reservation>): set<Port> {
    set r | r in log :: r.port
  }

  lemma PortsOfAppend(log: seq<Reservation>, r: Reservation)
    ensures PortsOf(log + [r]) == PortsOf(log) + {r.port}
  {
    assert r in log + [r] && forall x | x in log :: x in log + [r];
  }

  /** No more ports than this were ever reserved, each protocol counted for itself. */
  ghost predicate AtMost(log: seq<Reservation>, capacity: int) {
    log == [] || |PortsOf(log)| <= capacity
  }

  ghost predicate TcpOnly(log: seq<Reservation>) {
    forall r | r in log :: r.port.protocol == "tcp"
  }

  ghost function TcpPorts(lo: int, size: nat): set<Port> {
    set n | lo <= n < lo + size :: Port(n, "tcp")
  }

  lemma {:induction false} CountTcpPorts(lo: int, size: nat)
    ensures |TcpPorts(lo, size)| == size
  {
    if size > 0 {
      CountTcpPorts(lo, size - 1);
      assert TcpPorts(lo, size) == TcpPorts(lo, size - 1) + {Port(lo + size - 1, "tcp")};
    } else {
      assert TcpPorts(lo, 0) == {};
    }
  }

  /** While only TCP ports of a range are reserved, they are at most as many as the range has. */
  lemma TcpIsAtMost(log: seq<Reservation>, lo: int, hi: int)
    requires TcpOnly(log) && forall r | r in log :: lo <= r.port.number <= hi
    ensures AtMost(log, hi - lo + 1)
  {
    if log != [] {
      assert log[0] in log;
      CountTcpPorts(lo, hi - lo + 1);
      CountSubset(PortsOf(log), TcpPorts(lo, hi - lo + 1));
    }
  }

  /** Time does not go back. */
  ghost predicate Ordered(log: seq<Reservation>, clock: real) {
    log == [] || (log[|log| - 1].from <= clock && Ordered(log[..|log| - 1], log[|log| - 1].from))
  }

  lemma OrderedLater(log: seq<Reservation>, clock: real, now: real)
    requires Ordered(log, clock) && clock <= now
    ensures Ordered(log, now)
  {
  }

  lemma OrderedAppend(log: seq<Reservation>, clock: real, r: Reservation)
    requires Ordered(log, clock) && clock <= r.from
    ensures Ordered(log + [r], r.from)
  {
    assert (log + [r])[..|log|] == log;
    OrderedLater(log, clock, r.from);
  }

  /** When a reservation was made, the port was free. */
  ghost predicate NoOverlap(log: seq<Reservation>) {
    log == [] ||
    (NoOverlap(log[..|log| - 1]) && FreeIn(log[..|log| - 1], log[|log| - 1].port, log[|log| - 1].from))
  }

  lemma NoOverlapAppend(log: seq<Reservation>, r: Reservation)
    ensures NoOverlap(log + [r]) <==> NoOverlap(log) && FreeIn(log, r.port, r.from)
  {
    assert (log + [r])[..|log|] == log;
  }

  /** The latest reservation of a port began last and, without overlaps, ends last. */
  lemma {:induction false} LatestIsLast(log: seq<Reservation>, clock: real, i: nat)
    requires NoOverlap(log) && Ordered(log, clock) && i < |log|
    ensures var r := Latest(log, log[i].port);
      r.Some? && r.value.from <= clock && (log[i] == r.value || log[i].until <= r.value.from)
    decreases |log|
  {
    var init, last := log[..|log| - 1], log[|log| - 1];
    if i < |log| - 1 {
      LatestIsLast(init, last.from, i);
      if last.port == log[i].port {
        var r := Latest(init, log[i].port).value;
        assert r.until <= last.from && r.from <= last.from;
      }
    }
  }

  /** Without overlaps every reservation is over before the next one of the port begins. */
  lemma {:induction false} Earlier(log: seq<Reservation>, clock: real, i: nat, j: nat)
    requires NoOverlap(log) && Ordered(log, clock) && i < j < |log| && log[i].port == log[j].port
    ensures log[i].until <= log[j].from
    decreases |log|
  {
    var init, last := log[..|log| - 1], log[|log| - 1];
    if j == |log| - 1 {
      LatestIsLast(init, last.from, i);
    } else {
      Earlier(init, last.from, i, j);
    }
  }

  // ---------------------------------------------------------------- cache and history

  ghost function LiveEntries(entries: Entries, clock: real): set<(Port, real)> {
    set e | e in entries && e.1 > clock
  }

  /** The reservations that count and are not over. */
  ghost function LiveReservations(log: seq<Reservation>, clock: real): set<(Port, real)> {
    set r | r in log && r.until > clock && Latest(log, r.port) == Some(r) :: (r.port, r.until)
  }

  lemma LiveIsLatest(log: seq<Reservation>, clock: real, e: (Port, real))
    ensures e in LiveReservations(log, clock) <==>
      var r := Latest(log, e.0); r.Some? && r.value.until == e.1 && e.1 > clock
  {
    var r := Latest(log, e.0);
    if r.Some? && r.value.until == e.1 && e.1 > clock {
      assert r.value in log && r.value.until > clock && Latest(log, r.value.port) == Some(r.value);
      assert e == (r.value.port, r.value.until);
    }
  }

  ghost predicate Found(entries: Entries, port: Port, now: real) {
    exists e :: e in entries && e.0 == port && e.1 > now
  }

  /** What is found in the cache is taken. */
  lemma FoundIsTaken(entries: Entries, log: seq<Reservation>, clock: real, port: Port, now: real)
    requires LiveEntries(entries, clock) <= LiveReservations(log, clock) && clock <= now
    ensures Found(entries, port, now) ==> !FreeIn(log, port, now)
  {
    if e :| e in entries && e.0 == port && e.1 > now {
      assert e in LiveEntries(entries, clock);
      LiveIsLatest(log, clock, e);
    }
  }

  /** What is taken is found, when the cache has lost nothing. */
  lemma TakenIsFound(entries: Entries, log: seq<Reservation>, clock: real, port: Port, now: real)
    requires LiveReservations(log, clock) <= LiveEntries(entries, clock) && clock <= now
    ensures !FreeIn(log, port, now) ==> Found(entries, port, now)
  {
    if !FreeIn(log, port, now) {
      var e := (port, Latest(log, port).value.until);
      LiveIsLatest(log, clock, e);
      assert e in LiveEntries(entries, clock);
    }
  }

  function Placed(entries: Entries, port: Port, now: real, until: real): Entries {
    Without(DropExpired(entries, now), port) + [(port, until)]
  }

  /** There is room for a new entry of the port. */
  ghost predicate Fits(entries: Entries, port: Port, now: real, capacity: int) {
    var kept := DropExpired(entries, now);
    (exists e :: e in kept && e.0 == port) || |kept| < capacity
  }

  /** While the cache has room for every port that was ever reserved, nothing is pushed out. */
  lemma Room(entries: Entries, ports: set<Port>, port: Port, now: real, capacity: int)
    requires DistinctPorts(entries) && PortsIn(entries) <= ports && port in ports && |ports| <= capacity
    ensures Fits(entries, port, now, capacity)
  {
    var kept := DropExpired(entries, now);
    AfterDrop(entries, now);
    if forall e | e in kept :: e.0 != port {
      CountPorts(kept);
      assert port !in PortsIn(kept);
      forall p | p in PortsIn(kept) ensures p in ports {
        var e :| e in kept && e.0 == p;
        assert e in entries;
      }
      CountSubset(PortsIn(kept) + {port}, ports);
    }
  }

  /** What can be in the cache after a port was put into it. */
  ghost predicate PutInto(entries: Entries, port: Port, now: real, until: real, after: Entries) {
    && (port, until) in after
    && (forall e | e in after :: e == (port, until) || (e in entries && e.0 != port))
    && (DistinctPorts(entries) ==> DistinctPorts(after))
  }

  ghost function Items(entries: Entries): set<(Port, real)> {
    set e | e in entries
  }

  lemma {:induction false} CountItems(entries: Entries)
    ensures |Items(entries)| <= |entries|
    ensures DistinctPorts(entries) ==> |Items(entries)| == |entries|
  {
    if entries != [] {
      var init, last := entries[..|entries| - 1], entries[|entries| - 1];
      assert entries == init + [last];
      assert Items(entries) == Items(init) + {last};
      CountItems(init);
    }
  }

  /** A put pushes an entry out exactly when there is no room. Other protocols can bring this
      about: the capacity is the number of ports, not of ports and protocols. */
  lemma PushesOutExactly(entries: Entries, port: Port, now: real, until: real, capacity: nat, after: Entries)
    requires DistinctPorts(entries) && PutInto(entries, port, now, until, after)
    requires if Fits(entries, port, now, capacity) then after == Placed(entries, port, now, until) else |after| <= capacity
    ensures Fits(entries, port, now, capacity)
      <==> forall e | e in DropExpired(entries, now) && e.0 != port :: e in after
  {
    var kept := DropExpired(entries, now);
    AfterDrop(entries, now);
    AfterWithout(kept, port);
    if !Fits(entries, port, now, capacity) && forall e | e in kept && e.0 != port :: e in after {
      CountItems(kept);
      CountItems(after);
      assert (port, until) !in Items(kept);
      CountSubset(Items(kept) + {(port, until)}, Items(after));
      assert false;
    }
  }

  /** Nothing appears in the cache that the history does not know. */
  lemma StillKnown(entries: Entries, log: seq<Reservation>, clock: real, port: Port, now: real, until: real, after: Entries)
    requires LiveEntries(entries, clock) <= LiveReservations(log, clock) && clock <= now
    requires PutInto(entries, port, now, until, after)
    ensures LiveEntries(after, now) <= LiveReservations(log + [Reservation(port, now, until)], now)
  {
    var r := Reservation(port, now, until);
    forall e | e in LiveEntries(after, now) ensures e in LiveReservations(log + [r], now) {
      LiveIsLatest(log + [r], now, e);
      LiveIsLatest(log, clock, e);
      LatestAppend(log, r, e.0);
      if e != (port, until) {
        assert e in LiveEntries(entries, clock);
      }
    }
  }

  /** With room for it nothing is lost. */
  lemma StillComplete(entries: Entries, log: seq<Reservation>, clock: real, port: Port, now: real, until: real)
    requires LiveReservations(log, clock) <= LiveEntries(entries, clock) && clock <= now
    ensures LiveReservations(log + [Reservation(port, now, until)], now)
         <= LiveEntries(Placed(entries, port, now, until), now)
  {
    var r := Reservation(port, now, until);
    AfterDrop(entries, now);
    AfterWithout(DropExpired(entries, now), port);
    forall e | e in LiveReservations(log + [r], now) ensures e in LiveEntries(Placed(entries, port, now, until), now) {
      LiveIsLatest(log + [r], now, e);
      LiveIsLatest(log, clock, e);
      LatestAppend(log, r, e.0);
      if e.0 != port {
        assert e in LiveEntries(entries, clock);
      }
    }
  }

  /** The TTL cache, with the history of the reservations made through it. */
  class PortCache {
    const maxSize: int
    ghost const lo: int
    ghost const hi: int
    var entries: Entries
    ghost var log: seq<Reservation>
    ghost var clock: real

    constructor (lo: int, hi: int)
      ensures Valid() && entries == [] && log == [] && clock == 0.0
      ensures maxSize == hi - lo + 1 && this.lo == lo && this.hi == hi
    {
      maxSize := hi - lo + 1;
      this.lo, this.hi := lo, hi;
      entries, log, clock := [], [], 0.0;
    }

    /** What the cache holds was reserved. While it has room for every port that was ever
        reserved, it also holds every reservation that is not over. */
    ghost predicate Valid()
      reads this
    {
      && maxSize == hi - lo + 1
      && InRange(entries, lo, hi) && Ordered(log, clock)
      && PortsIn(entries) <= PortsOf(log) && (forall r | r in log :: lo <= r.port.number <= hi)
      && (entries != [] ==> |entries| <= maxSize)
      && LiveEntries(entries, clock) <= LiveReservations(log, clock)
      && (Uncrowded() ==> LiveReservations(log, clock) <= LiveEntries(entries, clock))
    }

    /** There is room for every port that was ever reserved. */
    ghost predicate Uncrowded()
      reads this
    {
      AtMost(log, maxSize)
    }

    /** Which is so while only TCP ports are reserved. */
    lemma TcpIsUncrowded()
      requires Valid() && TcpOnly(log)
      ensures Uncrowded()
    {
      TcpIsAtMost(log, lo, hi);
    }

    /** Whether the port is free, judged by the history alone. */
    ghost predicate Free(port: Port, now: real)
      reads this
    {
      FreeIn(log, port, now)
    }

    /** `self._ports_cache.get(port) is not None`. */
    method Contains(port: Port, now: real) returns (found: bool)
      ensures found <==> Found(entries, port, now)
    {
      found := false;
      for i := 0 to |entries|
        invariant found <==> Found(entries[..i], port, now)
      {
        assert entries[..i + 1] == entries[..i] + [entries[i]];
        if entries[i].0 == port && entries[i].1 > now {
          assert entries[i] in entries[..i + 1];
          found := true;
        }
      }
      assert entries[..|entries|] == entries;
    }

    /** `cache[port] = ...` followed by `set_expiry`. A new key pushes other entries out exactly
        when the cache is full of other keys that are not removed as expired. */
    method Put(port: Port, now: real, until: real)
      requires maxSize >= 1
      modifies this`entries
      ensures PutInto(old(entries), port, now, until, entries)
      ensures if Fits(old(entries), port, now, maxSize) then entries == Placed(old(entries), port, now, until)
              else |entries| == maxSize
      ensures old(|entries|) <= maxSize ==> |entries| <= maxSize
    {
      ghost var before := entries;
      entries := DropExpired(entries, now);
      var known := exists e | e in entries :: e.0 == port;
      AfterDrop(before, now);
      if !known {
        EvictFor(port);
        NothingToRemove(entries, port);
      }
      AfterWithout(entries, port);
      ShorterWithout(entries, port);
      entries := Without(entries, port) + [(port, until)];
    }

    /** Makes room for one entry. Which entries go is left open. */
    method EvictFor(port: Port)
      requires maxSize >= 1 && forall e | e in entries :: e.0 != port
      modifies this`entries
      ensures if old(|entries|) < maxSize then entries == old(entries) else |entries| == maxSize - 1
      ensures forall e | e in entries :: e.0 != port && e in old(entries)
      ensures old(DistinctPorts(entries)) ==> DistinctPorts(entries)
    {
      while |entries| + 1 > maxSize
        invariant if old(|entries|) < maxSize then entries == old(entries) else |entries| >= maxSize - 1
        invariant forall e | e in entries :: e.0 != port && e in old(entries)
        invariant old(DistinctPorts(entries)) ==> DistinctPorts(entries)
        decreases |entries|
      {
        var victim :| 0 <= victim < |entries|;
        entries := entries[..victim] + entries[victim + 1..];
      }
    }

    /** A reservation of a port of the range, whether or not it is free. */
    method Reserve(port: Port, now: real, until: real)
      requires Valid() && now >= clock && lo <= port.number <= hi
      modifies this
      ensures Valid() && clock == now
      ensures log == old(log) + [Reservation(port, now, until)]
      ensures (port, until) in entries
      ensures NoOverlap(log) <==> old(NoOverlap(log) && Free(port, now))
    {
      ghost var r := Reservation(port, now, until);
      ghost var before := entries;
      PortsOfAppend(log, r);
      OrderedAppend(log, clock, r);
      NoOverlapAppend(log, r);
      Put(port, now, until);
      StillKnown(before, log, clock, port, now, until, entries);
      StillAll(before, log, clock, port, now, until, entries, maxSize);
      KnownPorts(before, log, port, now, until, entries);
      clock := now;
      log := log + [r];
    }
  }

  /** While there is room for all ports that were reserved, nothing is lost. */
  lemma StillAll(entries: Entries, log: seq<Reservation>, clock: real, port: Port, now: real, until: real,
                 after: Entries, capacity: int)
    requires DistinctPorts(entries) && PortsIn(entries) <= PortsOf(log) && clock <= now
    requires AtMost(log, capacity) ==> LiveReservations(log, clock) <= LiveEntries(entries, clock)
    requires Fits(entries, port, now, capacity) ==> after == Placed(entries, port, now, until)
    ensures var all := log + [Reservation(port, now, until)];
      AtMost(all, capacity) ==> LiveReservations(all, now) <= LiveEntries(after, now)
  {
    var r := Reservation(port, now, until);
    PortsOfAppend(log, r);
    if AtMost(log + [r], capacity) {
      CountSubset(PortsOf(log), PortsOf(log + [r]));
      Room(entries, PortsOf(log + [r]), port, now, capacity);
      StillComplete(entries, log, clock, port, now, until);
    }
  }

  lemma KnownPorts(entries: Entries, log: seq<Reservation>, port: Port, now: real, until: real, after: Entries)
    requires PortsIn(entries) <= PortsOf(log) && PutInto(entries, port, now, until, after)
    ensures PortsIn(after) <= PortsOf(log + [Reservation(port, now, until)])
  {
    PortsOfAppend(log, Reservation(port, now, until));
    forall p | p in PortsIn(after) ensures p == port || p in PortsIn(entries) {
      var e :| e in after && e.0 == p;
    }
  }

  lemma {:induction false} NothingToRemove(entries: Entries, port: Port)
    requires forall e | e in entries :: e.0 != port
    ensures Without(entries, port) == entries
  {
    if entries != [] {
      assert entries[0] in entries;
      NothingToRemove(entries[1..], port);
    }
  }

  /** Without overlaps no port is reserved twice at any time. */
  lemma OneHolder(cache: PortCache, i: nat, j: nat, t: real)
    requires cache.Valid() && NoOverlap(cache.log)
    requires i < |cache.log| && j < |cache.log| && cache.log[i].port == cache.log[j].port
    requires cache.log[i].from <= t < cache.log[i].until && cache.log[j].from <= t < cache.log[j].until
    ensures i == j
  {
    if i < j {
      Earlier(cache.log, cache.clock, i, j);
    } else if j < i {
      Earlier(cache.log, cache.clock, j, i);
    }
  }

  // ---------------------------------------------------------------- port ranges

  class PortRange {
    const start: int
    const end: int
    var cache: PortCache

    /** The range lies inside the one that the cache was made for. */
    ghost predicate Valid()
      reads this, cache
    {
      cache.Valid() && (start <= end ==> cache.lo <= start && end <= cache.hi)
    }

    constructor (start: int, end: int)
      ensures Valid() && fresh(cache) && this.start == start && this.end == end
      ensures cache.lo == start && cache.hi == end && cache.log == [] && cache.entries == [] && cache.clock == 0.0
    {
      this.start, this.end := start, end;
      cache := new PortCache(start, end);
    }

    /** A range inside this one that shares its cache, or none when it is not inside. */
    method Subrange(start: Option<int>, end: Option<int>) returns (r: Option<PortRange>)
      requires Valid()
      ensures
        var s := if start.Some? then start.value else this.start;
        var e := if end.Some? then end.value else this.end;
        && (r.Some? <==> this.start <= s && e <= this.end)
        && (r.Some? ==> fresh(r.value) && r.value.start == s && r.value.end == e
                        && r.value.cache == cache && r.value.Valid())
    {
      var s := if start.Some? then start.value else this.start;
      var e := if end.Some? then end.value else this.end;
      if s < this.start || e > this.end {
        return None;
      }
      var range := new PortRange(s, e);
      range.cache := cache;
      return Some(range);
    }

    /** Neither the cache nor the system holds the port. */
    ghost predicate Clear(port: Port, now: real, bindable: Port -> bool)
      reads this, cache
    {
      !Found(cache.entries, port, now) && bindable(port)
    }

    /** Neither the history nor the system holds the port. */
    ghost predicate Available(port: Port, now: real, bindable: Port -> bool)
      reads this, cache
    {
      cache.Free(port, now) && bindable(port)
    }

    /** While there is room for all ports, the cache tells the truth; in any case it never
        refuses a port that is available. */
    lemma CacheKnows(port: Port, now: real, bindable: Port -> bool)
      requires Valid() && now >= cache.clock
      ensures Available(port, now, bindable) ==> Clear(port, now, bindable)
      ensures cache.Uncrowded() ==> (Clear(port, now, bindable) <==> Available(port, now, bindable))
    {
      FoundIsTaken(cache.entries, cache.log, cache.clock, port, now);
      if cache.Uncrowded() {
        TakenIsFound(cache.entries, cache.log, cache.clock, port, now);
      }
    }

    /** `is_port_reserved`. */
    method IsPortReserved(port: Port, now: real) returns (reserved: bool)
      requires Valid() && now >= cache.clock
      ensures reserved <==> Found(cache.entries, port, now)
      ensures reserved ==> !cache.Free(port, now)
      ensures cache.Uncrowded() ==> (reserved <==> !cache.Free(port, now))
    {
      CacheKnows(port, now, (p: Port) => true);
      reserved := cache.Contains(port, now);
    }

    /** `mark_reserved`, whether or not the port is free; refused outside the range. A
        reservation that was still running is replaced, and only then is there an overlap. */
    method MarkReserved(port: Port, duration: Option<real>, now: real) returns (ok: bool)
      requires Valid() && now >= cache.clock
      modifies cache
      ensures Valid()
      ensures ok <==> start <= port.number <= end
      ensures cache.clock == if ok then now else old(cache.clock)
      ensures cache.log == if ok then old(cache.log) + [Reservation(port, now, now + Seconds(duration))] else old(cache.log)
      ensures ok ==> (port, now + Seconds(duration)) in cache.entries
      ensures ok ==> (NoOverlap(cache.log) <==> old(NoOverlap(cache.log) && cache.Free(port, now)))
      ensures !ok ==> cache.entries == old(cache.entries)
    {
      if !(start <= port.number <= end) {
        return false;
      }
      cache.Reserve(port, now, now + Seconds(duration));
      return true;
    }

    /** `_try_reserve_port`. */
    method TryReserve(port: Port, duration: Option<real>, now: real, bindable: Port -> bool) returns (ok: bool)
      requires Valid() && start <= port.number <= end && now >= cache.clock
      modifies cache
      ensures Valid()
      ensures ok == old(Clear(port, now, bindable))
      ensures old(cache.Uncrowded()) ==> ok == old(Available(port, now, bindable))
      ensures cache.clock == if ok then now else old(cache.clock)
      ensures cache.log == if ok
        then old(cache.log) + [Reservation(port, now, now + Seconds(duration))] else old(cache.log)
      ensures ok ==> (port, now + Seconds(duration)) in cache.entries
      ensures old(cache.Uncrowded() && NoOverlap(cache.log)) ==> NoOverlap(cache.log)
      ensures !ok ==> cache.entries == old(cache.entries)
    {
      CacheKnows(port, now, bindable);
      var reserved := IsPortReserved(port, now);
      if reserved || !bindable(port) {
        return false;
      }
      ok := MarkReserved(port, duration, now);
    }

    /** `reserve_port`: a port may be requested with its protocol, the search is for TCP. */
    method ReservePort(port: Option<Port>, duration: Option<real>, now: real, bindable: Port -> bool) returns (r: Option<int>)
      requires Valid() && now >= cache.clock
      modifies cache
      ensures Valid()
      ensures cache.log == if r.None? then old(cache.log) else
        old(cache.log)
        + [Reservation(if port.Some? then port.value else Port(r.value, "tcp"), now, now + Seconds(duration))]
      ensures r.Some? ==>
        (if port.Some? then port.value else Port(r.value, "tcp"), now + Seconds(duration)) in cache.entries
      ensures port.Some? ==>
        r == if start <= port.value.number <= end && old(Clear(port.value, now, bindable))
             then Some(port.value.number) else None
      ensures port.None? && r.Some? ==> start <= r.value <= end && old(Clear(Port(r.value, "tcp"), now, bindable))
      ensures port.None? ==> forall p | start <= p <= end && (r.Some? ==> p < r.value) ::
        !old(Clear(Port(p, "tcp"), now, bindable))
      ensures cache.clock == if r.Some? then now else old(cache.clock)
      ensures old(cache.Uncrowded()) ==>
        forall p: Port :: old(Clear(p, now, bindable)) <==> old(Available(p, now, bindable))
      ensures old(cache.Uncrowded() && NoOverlap(cache.log)) ==> NoOverlap(cache.log)
    {
      forall p: Port ensures cache.Uncrowded() ==> (Clear(p, now, bindable) <==> Available(p, now, bindable)) {
        CacheKnows(p, now, bindable);
      }
      if port.Some? {
        if !(start <= port.value.number <= end) {
          return None;
        }
        var ok := TryReserve(port.value, duration, now, bindable);
        return if ok then Some(port.value.number) else None;
      }
      var p := start;
      while p <= end
        invariant start <= p && Valid()
        invariant cache.log == old(cache.log) && cache.clock == old(cache.clock) && cache.entries == old(cache.entries)
        invariant forall q | start <= q < p && q <= end :: !old(Clear(Port(q, "tcp"), now, bindable))
        decreases end - p
      {
        var ok := TryReserve(Port(p, "tcp"), duration, now, bindable);
        if ok {
          return Some(p);
        }
        p := p + 1;
      }
      return None;
    }
  }

  /** A range of one port hands it out twice, both times for TCP and at one instant, when the
      port is reserved for UDP in between: the cache has room for one entry. */
  method OtherProtocolsPushOut(number: int, bindable: Port -> bool) returns (first: Option<int>, second: Option<int>, third: Option<int>)
    requires bindable(Port(number, "tcp")) && bindable(Port(number, "udp"))
    ensures first == second == third == Some(number)
  {
    var tcp, udp := Port(number, "tcp"), Port(number, "udp");
    var ports := new PortRange(number, number);
    first := HandOut(ports, tcp, bindable);
    OneEntry(ports.cache.entries, tcp, udp);
    second := HandOut(ports, udp, bindable);
    OneEntry(ports.cache.entries, udp, tcp);
    third := HandOut(ports, tcp, bindable);
  }

  method HandOut(ports: PortRange, port: Port, bindable: Port -> bool) returns (r: Option<int>)
    requires ports.Valid() && ports.cache.clock == 0.0 && !Found(ports.cache.entries, port, 0.0) && bindable(port)
    requires ports.start == ports.end == ports.cache.lo == ports.cache.hi == port.number
    modifies ports.cache
    ensures ports.Valid() && ports.cache.clock == 0.0 && r == Some(port.number)
    ensures (port, 6.0) in ports.cache.entries && |ports.cache.entries| <= 1
  {
    r := ports.ReservePort(Some(port), None, 0.0, bindable);
  }

  lemma OneEntry(entries: Entries, port: Port, other: Port)
    requires port != other && |entries| <= 1 && (port, 6.0) in entries
    ensures !Found(entries, other, 0.0)
  {
  }

  // ---------------------------------------------------------------- contiguous ranges

  ghost predicate AllClear(ports: PortRange, first: int, count: nat, now: real, bindable: Port -> bool)
    reads ports, ports.cache
  {
    forall p | first <= p < first + count :: ports.Clear(Port(p, "tcp"), now, bindable)
  }

  /** The reservations of consecutive ports, in ascending order. */
  ghost function Marks(first: int, count: nat, now: real): seq<Reservation> {
    if count == 0 then []
    else Marks(first, count - 1, now) + [Mark(first, count - 1, now)]
  }

  ghost function Mark(first: int, i: nat, now: real): Reservation {
    Reservation(Port(first + i, "tcp"), now, now + Seconds(None))
  }

  /** A port after the marked ones is as free as it was. */
  lemma {:induction false} StillFree(log: seq<Reservation>, first: int, count: nat, now: real, port: Port)
    requires port.number >= first + count
    ensures Latest(log + Marks(first, count, now), port) == Latest(log, port)
  {
    if count == 0 {
      assert log + Marks(first, 0, now) == log;
    } else {
      StillFree(log, first, count - 1, now, port);
      MarksSnoc(log, first, count - 1, now);
      LatestAppend(log + Marks(first, count - 1, now), Mark(first, count - 1, now), port);
    }
  }

  lemma MarksSnoc(log: seq<Reservation>, first: int, count: nat, now: real)
    ensures log + Marks(first, count + 1, now) == log + Marks(first, count, now) + [Mark(first, count, now)]
  {
    Assoc(log, Marks(first, count, now), [Mark(first, count, now)]);
  }

  method IsRangeFree(ports: PortRange, first: int, count: nat, now: real, bindable: Port -> bool) returns (free: bool)
    requires ports.Valid() && now >= ports.cache.clock
    ensures free <==> AllClear(ports, first, count, now, bindable)
  {
    for i := 0 to count
      invariant AllClear(ports, first, i, now, bindable)
    {
      var port := Port(first + i, "tcp");
      var reserved := ports.IsPortReserved(port, now);
      if reserved || !bindable(port) {
        assert !ports.Clear(port, now, bindable);
        return false;
      }
    }
    return true;
  }

  ghost predicate AllFree(log: seq<Reservation>, first: int, count: nat, now: real) {
    forall p | first <= p < first + count :: FreeIn(log, Port(p, "tcp"), now)
  }

  lemma {:induction false} MarksFit(log: seq<Reservation>, first: int, count: nat, now: real)
    requires NoOverlap(log) && AllFree(log, first, count, now)
    ensures NoOverlap(log + Marks(first, count, now))
  {
    if count == 0 {
      assert log + Marks(first, 0, now) == log;
    } else {
      var port := Port(first + count - 1, "tcp");
      MarksFit(log, first, count - 1, now);
      StillFree(log, first, count - 1, now, port);
      assert FreeIn(log, port, now);
      MarksSnoc(log, first, count - 1, now);
      NoOverlapAppend(log + Marks(first, count - 1, now), Mark(first, count - 1, now));
    }
  }

  /** The first `i` ports of a range have been marked. */
  ghost predicate Marked(ports: PortRange, log: seq<Reservation>, first: int, i: nat, now: real)
    reads ports, ports.cache
  {
    ports.Valid() && now >= ports.cache.clock && ports.cache.log == log + Marks(first, i, now)
  }

  method MarkRange(ports: PortRange, first: int, count: nat, now: real)
    requires ports.Valid() && now >= ports.cache.clock
    requires ports.start <= first && first + count - 1 <= ports.end
    modifies ports.cache
    ensures ports.Valid() && ports.cache.log == old(ports.cache.log) + Marks(first, count, now)
  {
    ghost var log := ports.cache.log;
    assert Marked(ports, log, first, 0, now);
    for i := 0 to count
      invariant Marked(ports, log, first, i, now)
    {
      MarkNext(ports, first, i, now, log);
    }
  }

  method MarkNext(ports: PortRange, first: int, i: nat, now: real, ghost log: seq<Reservation>)
    requires Marked(ports, log, first, i, now) && ports.start <= first + i <= ports.end
    modifies ports.cache
    ensures Marked(ports, log, first, i + 1, now)
  {
    MarksSnoc(log, first, i, now);
    var _ := ports.MarkReserved(Port(first + i, "tcp"), None, now);
  }

  /** `get_free_tcp_port_range`: `starts` are the random draws, one for each attempt. The
      first draw from which all ports are free wins, and exactly these are reserved. */
  method GetFreeTcpPortRange(ports: PortRange, count: int, starts: seq<int>, now: real, bindable: Port -> bool)
    returns (r: Option<PortRange>)
    requires ports.Valid() && now >= ports.cache.clock
    requires forall s | s in starts :: ports.start <= s <= ports.end - count - 1
    modifies ports.cache
    ensures ports.Valid()
    ensures r.None? ==> ports.cache.log == old(ports.cache.log)
    ensures count < 2 ==> r.None?
    ensures count >= 2 && r.None? ==> forall s | s in starts :: !old(AllClear(ports, s, count, now, bindable))
    ensures r.Some? ==> exists i ::
      && 0 <= i < |starts| && r.value.start == starts[i] && r.value.end == starts[i] + count - 1
      && old(AllClear(ports, starts[i], count, now, bindable))
      && (forall j | 0 <= j < i :: !old(AllClear(ports, starts[j], count, now, bindable)))
    ensures r.Some? ==> ports.cache.log == old(ports.cache.log) + Marks(r.value.start, count, now)
    ensures old(ports.cache.Uncrowded() && NoOverlap(ports.cache.log)) ==> NoOverlap(ports.cache.log)
  {
    if count < 2 {
      return None;
    }
    var i := FirstFree(ports, count, starts, now, bindable);
    if i == |starts| {
      return None;
    }
    assert starts[i] in starts;
    ghost var log := ports.cache.log;
    if ports.cache.Uncrowded() && NoOverlap(log) {
      RangeIsFree(ports, starts[i], count, now, bindable);
      MarksFit(log, starts[i], count, now);
    }
    MarkRange(ports, starts[i], count, now);
    var range := new PortRange(starts[i], starts[i] + count - 1);
    return Some(range);
  }

  lemma RangeIsFree(ports: PortRange, first: int, count: nat, now: real, bindable: Port -> bool)
    requires ports.Valid() && now >= ports.cache.clock && ports.cache.Uncrowded()
    requires AllClear(ports, first, count, now, bindable)
    ensures AllFree(ports.cache.log, first, count, now)
  {
    forall p | first <= p < first + count ensures FreeIn(ports.cache.log, Port(p, "tcp"), now) {
      ports.CacheKnows(Port(p, "tcp"), now, bindable);
    }
  }

  /** The attempts, up to the first one that finds all ports free. */
  method FirstFree(ports: PortRange, count: nat, starts: seq<int>, now: real, bindable: Port -> bool) returns (i: nat)
    requires ports.Valid() && now >= ports.cache.clock
    ensures i <= |starts|
    ensures i < |starts| ==> AllClear(ports, starts[i], count, now, bindable)
    ensures forall j | 0 <= j < i :: !AllClear(ports, starts[j], count, now, bindable)
  {
    i := 0;
    while i < |starts|
      invariant i <= |starts| && forall j | 0 <= j < i :: !AllClear(ports, starts[j], count, now, bindable)
    {
      var free := IsRangeFree(ports, starts[i], count, now, bindable);
      if free {
        return;
      }
      i := i + 1;
    }
  }

  /** `if duration:` no duration and zero both mean the default. */
  function Seconds(duration: Option<real>): (r: real)
    ensures duration == None || duration == Some(0.0) ==> r == 6.0
    ensures duration.Some? && duration.value != 0.0 ==> r == duration.value
  {
    if duration.None? || duration.value == 0.0 then DEFAULT_PORT_RESERVED_SECONDS else duration.value
  }
}
