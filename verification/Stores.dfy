/** Provider stores: attributes that are local to a region, shared by the regions of an
    account, or shared by all accounts. The sharing is aliasing: every store refers to the
    dict of its region bundle and to the one dict of the account bundle, and it keeps doing
    so after it has been dropped from them. */
module Stores {
  import opened PyDict
  import opened Sequences

  /** References to arbitrary Python objects. */
  type Value = int

  datatype Kind = Local | CrossRegion | CrossAccount

  // ---------------------------------------------------------------- what has happened

  /** A reset lists what it found in the bundles: stores that were dropped before are not
      cleared. */
  datatype Event =
    | Wrote(store: Store, name: string, value: Value)
    | RegionReset(bundle: RegionBundle, live: set<Store>)
    | AccountReset(bundles: set<RegionBundle>, live: set<Store>)

  /** Who sees an attribute: one store, the stores of a region bundle, or all. */
  datatype Scope = OneStore(store: Store) | OneAccount(bundle: RegionBundle) | Everyone

  ghost function ScopeOf(kind: Kind, store: Store): Scope {
    match kind case Local => OneStore(store) case CrossRegion => OneAccount(store.home) case CrossAccount => Everyone
  }

  ghost predicate Seen(scope: Scope, writer: Store) {
    match scope case OneStore(s) => s == writer case OneAccount(b) => b == writer.home case Everyone => true
  }

  ghost predicate Cleared(scope: Scope, e: Event) {
    match e
    case Wrote(_, _, _) => false
    case RegionReset(bundle, live) =>
      (match scope case OneStore(s) => s in live case OneAccount(b) => b == bundle case Everyone => false)
    case AccountReset(bundles, live) =>
      (match scope case OneStore(s) => s in live case OneAccount(b) => b in bundles case Everyone => true)
  }

  /** What is found in a scope under a name after a history: the last write to it that the
      scope sees, unless a reset has cleared it since. */
  ghost function Recall(log: seq<Event>, scope: Scope, name: string): Option<Value> {
    if log == [] then None else Update(log[|log| - 1], scope, name, Recall(log[..|log| - 1], scope, name))
  }

  ghost function Update(e: Event, scope: Scope, name: string, before: Option<Value>): Option<Value> {
    if e.Wrote? && e.name == name && Seen(scope, e.store) then Some(e.value)
    else if Cleared(scope, e) then None
    else before
  }

  lemma RecallAppend(log: seq<Event>, e: Event)
    ensures forall scope, name {:trigger Recall(log + [e], scope, name)} ::
      Recall(log + [e], scope, name) == Update(e, scope, name, Recall(log, scope, name))
  {
  }

  /** The history only knows stores and bundles that exist. */
  ghost predicate Known(log: seq<Event>, stores: set<Store>, bundles: set<RegionBundle>) {
    forall e | e in log && e.Wrote? :: e.store in stores && e.store.home in bundles
  }

  /** Nothing is found in a scope that is still to be created. */
  lemma {:induction false} NothingYet(log: seq<Event>, stores: set<Store>, bundles: set<RegionBundle>, scope: Scope, name: string)
    requires Known(log, stores, bundles)
    requires match scope case OneStore(s) => s !in stores case OneAccount(b) => b !in bundles case Everyone => false
    ensures Recall(log, scope, name) == None
  {
    if log != [] {
      assert log[|log| - 1] in log;
      NothingYet(log[..|log| - 1], stores, bundles, scope, name);
    }
  }

  // ---------------------------------------------------------------- the objects

  class SharedDict {
    var items: map<string, Value>

    constructor ()
      ensures items == map[]
    {
      items := map[];
    }
  }

  function Find(m: map<string, Value>, name: string): Option<Value> {
    if name in m then Some(m[name]) else None
  }

  class Store {
    const universal: SharedDict
    const global: SharedDict
    const region: string
    var attrs: map<string, Value>  // the instance attributes with the prefix "attr_"
    ghost const home: RegionBundle

    constructor (global: SharedDict, universal: SharedDict, region: string, ghost home: RegionBundle)
      ensures this.global == global && this.universal == universal && this.region == region && this.home == home
      ensures attrs == map[]
    {
      this.global, this.universal, this.region := global, universal, region;
      this.home := home;
      attrs := map[];
    }

    /** The region bundle has not dropped this store. */
    ghost predicate Held()
      reads home
    {
      region in home.regions && home.regions[region] == this
    }

    /** What a descriptor of this kind finds, without setting a default. */
    function Peek(kind: Kind, name: string): Option<Value>
      reads this, global, universal
    {
      match kind
      case Local => Find(attrs, name)
      case CrossRegion => Find(global.items, name)
      case CrossAccount => Find(universal.items, name)
    }

    // `__set__` of the three descriptors.

    method SetLocal(name: string, value: Value, ghost root: AccountRegionBundle)
      requires root.Valid() && this in root.stores && root.schema(name) == Local
      modifies root`log, this
      ensures root.Valid() && root.log == old(root.log) + [Wrote(this, name, value)]
    {
      attrs := attrs[name := value];
      RecallAppend(root.log, Wrote(this, name, value));
      root.log := root.log + [Wrote(this, name, value)];
    }

    method SetCrossRegion(name: string, value: Value, ghost root: AccountRegionBundle)
      requires root.Valid() && this in root.stores && root.schema(name) == CrossRegion
      modifies root`log, global
      ensures root.Valid() && root.log == old(root.log) + [Wrote(this, name, value)]
    {
      global.items := global.items[name := value];
      RecallAppend(root.log, Wrote(this, name, value));
      root.log := root.log + [Wrote(this, name, value)];
    }

    method SetCrossAccount(name: string, value: Value, ghost root: AccountRegionBundle)
      requires root.Valid() && this in root.stores && root.schema(name) == CrossAccount
      modifies root`log, universal
      ensures root.Valid() && root.log == old(root.log) + [Wrote(this, name, value)]
    {
      universal.items := universal.items[name := value];
      RecallAppend(root.log, Wrote(this, name, value));
      root.log := root.log + [Wrote(this, name, value)];
    }

    /** `__get__`: an attribute that is not set is first set to a default. */
    method Get(kind: Kind, name: string, default: Value, ghost root: AccountRegionBundle) returns (r: Value)
      requires root.Valid() && this in root.stores && root.schema(name) == kind
      modifies root`log, this, global, universal
      ensures root.Valid()
      ensures var found := Recall(old(root.log), ScopeOf(kind, this), name);
        if found.Some? then r == found.value && root.log == old(root.log)
        else r == default && root.log == old(root.log) + [Wrote(this, name, default)]
    {
      var found := Peek(kind, name);
      if found.Some? {
        return found.value;
      }
      match kind {
        case Local => SetLocal(name, default, root);
        case CrossRegion => SetCrossRegion(name, default, root);
        case CrossAccount => SetCrossAccount(name, default, root);
      }
      return default;
    }
  }

  class RegionBundle {
    const universal: SharedDict
    const global: SharedDict
    const account: string
    var regions: map<string, Store>

    constructor (account: string, universal: SharedDict)
      ensures fresh(global) && global.items == map[] && regions == map[]
      ensures this.account == account && this.universal == universal
    {
      this.account, this.universal := account, universal;
      global := new SharedDict();
      regions := map[];
    }

    /** `__getitem__`: an unknown region name is refused, a new one gets a new store that
        refers to the two shared dicts. */
    method Lookup(region: string, allowed: bool, ghost root: AccountRegionBundle) returns (r: Option<Store>)
      requires root.Valid() && this in root.bundles
      modifies this`regions, root`stores
      ensures root.Valid()
      ensures r.Some? <==> allowed
      ensures r.None? ==> regions == old(regions) && root.stores == old(root.stores)
      ensures r.Some? ==> r.value.home == this && regions == old(regions)[region := r.value]
      ensures r.Some? && region in old(regions) ==> r.value == old(regions)[region] && root.stores == old(root.stores)
      ensures r.Some? && region !in old(regions) ==> fresh(r.value) && root.stores == old(root.stores) + {r.value}
    {
      if !allowed {
        return None;
      }
      if region !in regions {
        var store := new Store(global, universal, region, this);
        forall name ensures Recall(root.log, OneStore(store), name) == None {
          NothingYet(root.log, root.stores, root.bundles, OneStore(store), name);
        }
        regions := regions[region := store];
        root.stores := root.stores + {store};
      }
      return Some(regions[region]);
    }

    /** Clears what the bundle holds: all local attributes of its stores, the shared dict of
        the account, and on request the shared dict of all accounts; then drops the stores. */
    method ClearData(resetUniversal: bool)
      requires global != universal
      requires forall r | r in regions :: regions[r].global == global && regions[r].universal == universal
      modifies this`regions, global, universal, regions.Values
      ensures regions == map[] && global.items == map[]
      ensures forall s | s in old(regions).Values :: s.attrs == map[]
      ensures universal.items == if resetUniversal && old(regions) != map[] then map[] else old(universal.items)
    {
      var todo := regions.Keys;
      while todo != {}
        invariant todo <= regions.Keys && regions == old(regions)
        invariant forall r | r in regions && r !in todo :: regions[r].attrs == map[]
        invariant universal.items
               == if resetUniversal && todo != regions.Keys then map[] else old(universal.items)
      {
        var r :| r in todo;
        var store := regions[r];
        store.global.items := map[];
        if resetUniversal {
          store.universal.items := map[];
        }
        store.attrs := map[];
        todo := todo - {r};
      }
      global.items := map[];
      regions := map[];
    }

    /** `reset` as callers use it. */
    method Reset(ghost root: AccountRegionBundle)
      requires root.Valid() && this in root.bundles
      modifies this`regions, root`log, global, universal, regions.Values
      ensures root.Valid() && regions == map[]
      ensures root.log == old(root.log) + [RegionReset(this, old(regions.Values))]
    {
      ghost var e := RegionReset(this, regions.Values);
      ClearData(false);
      root.log := root.log + [e];
      root.LocalAfterReset(e);
      root.RegionAfterReset(e);
    }
  }

  /** A turn of the loop of `reset`: the account it clears, the stores that were live at the
      start, and the accounts that are still to be cleared. */
  datatype Turn = Turn(account: string, live: set<Store>, todo: set<string>)

  class AccountRegionBundle {
    const universal: SharedDict
    const schema: string -> Kind
    var accounts: map<string, RegionBundle>
    ghost var bundles: set<RegionBundle>              // every region bundle ever created
    ghost var stores: set<Store>                      // every store ever created
    ghost var owners: map<SharedDict, RegionBundle>   // whose dict it is
    ghost var log: seq<Event>

    /** The aliasing of the bundles: all refer to the one dict of all accounts, and each has
        a dict of its own. */
    ghost predicate DictsOk()
      reads this
    {
      && universal !in owners
      && forall b | b in bundles :: b.universal == universal && b.global in owners && owners[b.global] == b
    }

    /** The tables hold bundles and stores under their own names. */
    ghost predicate TablesOk()
      reads this, bundles
    {
      && (forall a | a in accounts :: accounts[a] in bundles && accounts[a].account == a)
      && (forall b, r | b in bundles && r in b.regions ::
            b.regions[r] in stores && b.regions[r].home == b && b.regions[r].region == r)
    }

    /** The aliasing of the stores, also of those that were dropped. */
    ghost predicate StoresOk()
      reads this
    {
      forall s | s in stores :: s.universal == universal && s.home in bundles && s.global == s.home.global
    }

    // Every scope holds what the history says.

    ghost predicate LocalOk()
      reads this, stores
    {
      forall s, name | s in stores && schema(name) == Local ::
        Find(s.attrs, name) == Recall(log, OneStore(s), name)
    }

    ghost predicate RegionOk()
      reads this, set b | b in bundles :: b.global
    {
      forall b, name | b in bundles && schema(name) == CrossRegion ::
        Find(b.global.items, name) == Recall(log, OneAccount(b), name)
    }

    ghost predicate AccountOk()
      reads this, universal
    {
      forall name | schema(name) == CrossAccount :: Find(universal.items, name) == Recall(log, Everyone, name)
    }

    ghost predicate Valid()
      reads this, universal, bundles, stores, set b | b in bundles :: b.global
    {
      && DictsOk() && TablesOk() && StoresOk() && Known(log, stores, bundles)
      && LocalOk() && RegionOk() && AccountOk()
    }

    constructor (schema: string -> Kind)
      ensures Valid() && accounts == map[] && stores == {} && bundles == {} && log == []
    {
      this.schema := schema;
      universal := new SharedDict();
      accounts, bundles, stores, owners, log := map[], {}, {}, map[], [];
    }

    /** `__getitem__`: with validation on, the account id must start with twelve digits. */
    method Lookup(account: string, validate: bool) returns (r: Option<RegionBundle>)
      requires Valid()
      modifies this`accounts, this`bundles, this`owners
      ensures Valid()
      ensures r.Some? <==> !validate || (|account| >= 12 && forall i | 0 <= i < 12 :: '0' <= account[i] <= '9')
      ensures r.None? ==> accounts == old(accounts) && bundles == old(bundles)
      ensures r.Some? ==> accounts == old(accounts)[account := r.value] && r.value in bundles
      ensures r.Some? && account in old(accounts) ==> r.value == old(accounts)[account] && bundles == old(bundles)
      ensures r.Some? && account !in old(accounts) ==> fresh(r.value) && bundles == old(bundles) + {r.value}
    {
      if validate && !TwelveDigits(account) {
        return None;
      }
      if account !in accounts {
        var bundle := new RegionBundle(account, universal);
        forall name ensures Recall(log, OneAccount(bundle), name) == None {
          NothingYet(log, stores, bundles, OneAccount(bundle), name);
        }
        accounts := accounts[account := bundle];
        bundles := bundles + {bundle};
        owners := owners[bundle.global := bundle];
      }
      return Some(accounts[account]);
    }

    ghost predicate Reachable(b: RegionBundle)
      reads this
    {
      b.account in accounts && accounts[b.account] == b
    }

    ghost function LiveBundles(): set<RegionBundle>
      reads this
    {
      set b | b in bundles && Reachable(b)
    }

    /** The stores that can be reached through the bundles. */
    ghost function Live(): set<Store>
      reads this, set s | s in stores :: s.home
    {
      set s | s in stores && Reachable(s.home) && s.Held()
    }

    /** The bundles in `todo` still hold their part of the live stores; the others are cleared. */
    ghost predicate Progress(live: set<Store>, todo: set<string>)
      reads this, bundles, stores, set b | b in bundles :: b.global
    {
      && TablesOk() && todo <= accounts.Keys && live <= stores
      && (forall a | a in accounts && a !in todo :: accounts[a].regions == map[] && accounts[a].global.items == map[])
      && (forall a, r | a in todo && r in accounts[a].regions :: accounts[a].regions[r] in live)
      && (forall s | s in live && Reachable(s.home) && s.home.account !in todo :: s.attrs == map[])
      && (forall s | s in live && s.home.account in todo :: Reachable(s.home) && s.Held())
    }

    // What one turn of the loop of `reset` keeps, and how far it gets.

    twostate lemma TablesAfterClear(a: string)
      requires old(TablesOk())
      requires a in accounts && accounts == old(accounts) && bundles == old(bundles) && stores == old(stores)
      requires forall b | b in bundles :: b.regions == if b == accounts[a] then map[] else old(b.regions)
      ensures TablesOk()
    {
    }

    twostate lemma ProgressAfterClear(turn: Turn)
      requires old(StoresOk()) && old(Progress(turn.live, turn.todo)) && TablesOk() && turn.account in turn.todo
      requires accounts == old(accounts) && bundles == old(bundles) && stores == old(stores)
      requires forall b | b in bundles ::
        b.regions == if b == accounts[turn.account] then map[] else old(b.regions)
      requires forall b | b in bundles ::
        b.global.items == if b == accounts[turn.account] then map[] else old(b.global.items)
      requires forall s | s in stores ::
        s.attrs == if s in old(accounts[turn.account].regions.Values) then map[] else old(s.attrs)
      ensures Progress(turn.live, turn.todo - {turn.account})
    {
    }

    /** One turn of the loop of `reset`. */
    method ClearAccount(a: string, ghost live: set<Store>, ghost todo: set<string>)
      requires DictsOk() && StoresOk() && Progress(live, todo) && a in todo
      modifies accounts[a], accounts[a].global, universal, accounts[a].regions.Values
      ensures Progress(live, todo - {a})
    {
      accounts[a].ClearData(true);
      TablesAfterClear(a);
      ProgressAfterClear(Turn(a, live, todo));
    }

    /** The loop of `reset` over the bundles. */
    method ClearBundles()
      requires DictsOk() && TablesOk() && StoresOk()
      modifies universal, LiveBundles(), set b | b in LiveBundles() :: b.global, Live()
      ensures TablesOk()
      ensures forall b | b in LiveBundles() :: b.regions == map[]
      ensures forall b | b in bundles :: b.global.items == if Reachable(b) then map[] else old(b.global.items)
      ensures forall s | s in stores :: s.attrs == if s in old(Live()) then map[] else old(s.attrs)
    {
      ghost var live := Live();
      var todo := accounts.Keys;
      while todo != {}
        invariant Progress(live, todo)
      {
        var a :| a in todo;
        assert accounts[a] in LiveBundles();
        ClearAccount(a, live, todo);
        todo := todo - {a};
      }
    }

    /** What the history says after a reset is what is left in the stores ... */
    twostate lemma LocalAfterReset(e: Event)
      requires old(LocalOk()) && stores == old(stores) && log == old(log) + [e] && !e.Wrote?
      requires forall s | s in stores :: s.attrs == if Cleared(OneStore(s), e) then map[] else old(s.attrs)
      ensures LocalOk()
    {
      RecallAppend(old(log), e);
    }

    /** ... and in the dicts of the bundles. */
    twostate lemma RegionAfterReset(e: Event)
      requires old(RegionOk()) && bundles == old(bundles) && log == old(log) + [e] && !e.Wrote?
      requires forall b | b in bundles ::
        b.global.items == if Cleared(OneAccount(b), e) then map[] else old(b.global.items)
      ensures RegionOk()
    {
      RecallAppend(old(log), e);
    }

    twostate lemma AccountAfterReset(e: Event)
      requires log == old(log) + [e] && e.AccountReset? && universal.items == map[]
      ensures AccountOk()
    {
      RecallAppend(old(log), e);
    }

    /** All that a reset of everything leaves behind agrees with the history. */
    twostate lemma AfterReset(e: Event)
      requires old(Valid()) && stores == old(stores) && bundles == old(bundles) && log == old(log) + [e]
      requires e == AccountReset(old(LiveBundles()), old(Live()))
      requires DictsOk() && TablesOk() && StoresOk() && universal.items == map[]
      requires forall b | b in bundles :: b.global.items == if old(Reachable(b)) then map[] else old(b.global.items)
      requires forall s | s in stores :: s.attrs == if s in old(Live()) then map[] else old(s.attrs)
      ensures Valid()
    {
      LocalAfterReset(e);
      RegionAfterReset(e);
      AccountAfterReset(e);
    }

    /** All that `reset` does to the objects. */
    method ClearAll()
      requires DictsOk() && TablesOk() && StoresOk()
      modifies this`accounts, universal, LiveBundles(), set b | b in LiveBundles() :: b.global, Live()
      ensures DictsOk() && TablesOk() && StoresOk() && accounts == map[] && universal.items == map[]
      ensures forall b | b in old(LiveBundles()) :: b.regions == map[]
      ensures forall b | b in bundles :: b.global.items == if old(Reachable(b)) then map[] else old(b.global.items)
      ensures forall s | s in stores :: s.attrs == if s in old(Live()) then map[] else old(s.attrs)
    {
      ClearBundles();
      universal.items := map[];
      accounts := map[];
    }

    /** Clears every reachable bundle and the dict of all accounts, and drops the bundles. */
    method Reset()
      requires Valid()
      modifies this`accounts, this`log, universal, LiveBundles(), set b | b in LiveBundles() :: b.global, Live()
      ensures Valid() && accounts == map[]
      ensures log == old(log) + [AccountReset(old(LiveBundles()), old(Live()))]
      ensures forall b | b in old(LiveBundles()) :: b.regions == map[]
    {
      ghost var e := AccountReset(LiveBundles(), Live());
      ClearAll();
      log := log + [e];
      AfterReset(e);
    }
  }

  predicate TwelveDigits(account: string) {
    |account| >= 12 && forall i | 0 <= i < 12 :: '0' <= account[i] <= '9'
  }

  // ---------------------------------------------------------------- what the history means

  /** An event after which nothing earlier under the name can be found in the scope. */
  ghost predicate Decides(e: Event, scope: Scope, name: string) {
    (e.Wrote? && e.name == name && Seen(scope, e.store)) || Cleared(scope, e)
  }

  /** The event at `i` wrote `v`, and no later one decides. */
  ghost predicate WroteLast(log: seq<Event>, scope: Scope, name: string, v: Value, i: nat) {
    && i < |log| && log[i].Wrote? && log[i].name == name && Seen(scope, log[i].store) && log[i].value == v
    && forall j | i < j < |log| :: !Decides(log[j], scope, name)
  }

  /** A value is found exactly if the last event that decides wrote it. */
  lemma {:induction false} LastWriteWins(log: seq<Event>, scope: Scope, name: string, v: Value)
    ensures Recall(log, scope, name) == Some(v) <==> exists i: nat :: WroteLast(log, scope, name, v, i)
  {
    if log != [] {
      var init, e := log[..|log| - 1], log[|log| - 1];
      LastWriteWins(init, scope, name, v);
      forall i: nat | i < |init| ensures !Decides(e, scope, name) ==>
        (WroteLast(log, scope, name, v, i) <==> WroteLast(init, scope, name, v, i))
      {
        assert forall j | 0 <= j < |init| :: init[j] == log[j];
        assert forall j | 0 <= j < |log| :: j < |init| || log[j] == e;
      }
      if e.Wrote? && Decides(e, scope, name) && e.value == v {
        assert WroteLast(log, scope, name, v, |log| - 1);
      }
    }
  }

  /** An event that does not concern a name in a scope might as well not have happened, and
      one that clears the scope makes everything before it forgotten, whatever comes after. */
  lemma {:induction false} Forget(before: seq<Event>, e: Event, after: seq<Event>, scope: Scope, name: string)
    ensures !Decides(e, scope, name) ==>
      Recall(before + [e] + after, scope, name) == Recall(before + after, scope, name)
    ensures !e.Wrote? && Cleared(scope, e) ==>
      Recall(before + [e] + after, scope, name) == Recall(after, scope, name)
    decreases |after|
  {
    if after == [] {
      RecallAppend(before, e);
      assert before + [e] + [] == before + [e] && before + [] == before;
    } else {
      var init, last := after[..|after| - 1], after[|after| - 1];
      assert after == init + [last];
      Forget(before, e, init, scope, name);
      Snoc(before + [e], init, last, scope, name);
      Snoc(before, init, last, scope, name);
      RecallAppend(init, last);
    }
  }

  lemma Snoc(before: seq<Event>, init: seq<Event>, last: Event, scope: Scope, name: string)
    ensures Recall(before + (init + [last]), scope, name) == Update(last, scope, name, Recall(before + init, scope, name))
  {
    Assoc(before, init, [last]);
    RecallAppend(before + init, last);
  }

  /** Whose reads a write concerns: a local attribute its store only, a cross-region attribute
      the stores of the same region bundle, a cross-account attribute every store. */
  ghost predicate Shares(kind: Kind, writer: Store, reader: Store) {
    match kind
    case Local => reader == writer
    case CrossRegion => reader.home == writer.home
    case CrossAccount => true
  }

  /** A write is found by exactly these readers: they find it until something else decides,
      and to any other reader, and under any other name, it makes no difference for ever. */
  lemma WriteIsShared(before: seq<Event>, after: seq<Event>, kind: Kind, writer: Store, name: string, v: Value,
                      reader: Store, other: string)
    ensures var log, scope := before + [Wrote(writer, name, v)] + after, ScopeOf(kind, reader);
      if other == name && Shares(kind, writer, reader)
      then (forall e | e in after :: !Decides(e, scope, other)) ==> Recall(log, scope, other) == Some(v)
      else Recall(log, scope, other) == Recall(before + after, scope, other)
  {
    var scope := ScopeOf(kind, reader);
    if other == name && Shares(kind, writer, reader) {
      if forall e | e in after :: !Decides(e, scope, other) {
        RecallAppend(before, Wrote(writer, name, v));
        Undecided(before + [Wrote(writer, name, v)], after, scope, other);
      }
    } else {
      Forget(before, Wrote(writer, name, v), after, scope, other);
    }
  }

  lemma {:induction false} Undecided(before: seq<Event>, after: seq<Event>, scope: Scope, name: string)
    requires forall e | e in after :: !Decides(e, scope, name)
    ensures Recall(before + after, scope, name) == Recall(before, scope, name)
    decreases |after|
  {
    if after == [] {
      assert before + after == before;
    } else {
      var init, last := after[..|after| - 1], after[|after| - 1];
      assert after == init + [last] && last in after;
      Undecided(before, init, scope, name);
      Snoc(before, init, last, scope, name);
    }
  }

  /** After an account reset a store that was held in a bundle finds what was written since
      and nothing else. Only local attributes of stores dropped before survive. */
  lemma AccountResetClears(before: seq<Event>, after: seq<Event>, kind: Kind, bundles: set<RegionBundle>, live: set<Store>,
                           s: Store, name: string)
    requires s in live && s.home in bundles
    ensures Recall(before + [AccountReset(bundles, live)] + after, ScopeOf(kind, s), name)
         == Recall(after, ScopeOf(kind, s), name)
  {
    Forget(before, AccountReset(bundles, live), after, ScopeOf(kind, s), name);
  }

  /** A reset of one region bundle makes its dict and the stores it held forget what came
      before. For the stores of all other bundles, and for what all accounts share, it might
      as well not have happened. */
  lemma RegionResetIsConfined(before: seq<Event>, after: seq<Event>, kind: Kind, bundle: RegionBundle, live: set<Store>,
                              s: Store, name: string)
    requires forall x | x in live :: x.home == bundle
    ensures
      var found := Recall(before + [RegionReset(bundle, live)] + after, ScopeOf(kind, s), name);
      && (s in live && kind != CrossAccount ==> found == Recall(after, ScopeOf(kind, s), name))
      && (s.home == bundle && kind == CrossRegion ==> found == Recall(after, ScopeOf(kind, s), name))
      && (s.home != bundle || kind == CrossAccount ==> found == Recall(before + after, ScopeOf(kind, s), name))
  {
    Forget(before, RegionReset(bundle, live), after, ScopeOf(kind, s), name);
  }
}
