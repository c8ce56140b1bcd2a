/**
 * A backend over any number of updates: parse, dynamic update, alignment of slots before a reload, reordering of
 * endpoints, reload.
 */
module UpdateCycle {
  import opened Model
  import opened Ordering
  import opened Endpoints
  import opened SlotBook
  import opened DynUpdate
  import opened SlotAlignment
  import opened AddressSpec

  /** How endpoints are sorted before the configuration is written. */
  datatype Order = AsListed | ByName | ByIP | Random(choice: nat -> nat)

  /** What a backend is parsed from. */
  datatype Spec = Spec(config: Config, dynamic: Dynamic, pathState: string, addresses: seq<Address>)

  /** What a synchronization does to the backend: nothing, parse it again, or parse it for the first time. */
  datatype Change = Unchanged | Changed(spec: Spec) | Added(spec: Spec)

  /**
   * An update of the proxy, as one backend sees it. `accepted` tells if everything else in the configuration, the
   * other backends included, could be updated without a reload.
   */
  datatype Step = Step(change: Change, accepted: bool, order: Order)

  /** What holds of the endpoints of a backend after every update. */
  ghost predicate Healthy(eps: seq<Endpoint>)
  {
    DistinctTargets(eps) && DisabledEmpty(eps) && Sequential(eps)
  }

  // ---------------------------------------------------------------- what the steps keep

  lemma {:induction false} PaddedSequential(config: Config, eps: seq<Endpoint>, eps': seq<Endpoint>, n: nat)
    requires PaddedTo(config, eps, eps', n) && Sequential(eps) && config.epNaming == Sequence
    ensures Sequential(eps')
    decreases n - |eps|
  {
    if n == |eps| {
      assert eps' == eps;
    } else {
      PaddedSequential(config, eps, eps'[..n - 1], n - 1);
      assert eps' == eps'[..n - 1] + [eps'[n - 1]];
      SequentialAppend(eps'[..n - 1], eps'[n - 1]);
    }
  }

  lemma PaddedHealthy(config: Config, eps: seq<Endpoint>, eps': seq<Endpoint>, n: nat)
    requires PaddedTo(config, eps, eps', n) && Healthy(eps) && config.epNaming == Sequence
    ensures Healthy(eps')
  {
    PaddedSequential(config, eps, eps', n);
  }

  lemma UpdatedHealthy(config: Config, was: seq<Endpoint>, new_: seq<Endpoint>, eps: seq<Endpoint>)
    requires SlotsKept(config, was, new_, eps) && Healthy(was)
    requires OneTargetEach(new_) && AllEnabled(new_)
    ensures Healthy(eps)
  {
    SequentialReordered(was, eps);
    forall i | 0 <= i < |eps| ensures eps[i].enabled <==> i < |new_| {
      assert eps[i] == (if i < |new_| then new_[i] else EmptySlot(config, i)).(name := eps[i].name);
    }
    forall i, j | 0 <= i < j < |eps| && eps[i].enabled && eps[j].enabled ensures eps[i].target != eps[j].target {
      assert eps[i].target == new_[i].target && eps[j].target == new_[j].target;
    }
    forall i | 0 <= i < |eps| && !eps[i].enabled ensures eps[i].ip == EMPTY_IP && eps[i].port == EMPTY_PORT {
      assert eps[i] == EmptySlot(config, i).(name := eps[i].name);
    }
  }

  lemma RearrangedHealthy(eps: seq<Endpoint>, eps': seq<Endpoint>)
    requires Healthy(eps) && multiset(eps) == multiset(eps')
    ensures Healthy(eps')
  {
    forall i, j | 0 <= i < j < |eps'| && eps'[i].enabled && eps'[j].enabled ensures eps'[i].target != eps'[j].target {
      var k, l := TwoOf(eps, eps', i, j);
    }
    forall i | 0 <= i < |eps'| && !eps'[i].enabled ensures eps'[i].ip == EMPTY_IP && eps'[i].port == EMPTY_PORT {
      assert eps'[i] in multiset(eps);
    }
    RearrangedLength(eps, eps');
    RearrangedNames(eps, eps');
    SequentialReordered(eps, eps');
  }

  lemma {:induction false} RearrangedNames(eps: seq<Endpoint>, eps': seq<Endpoint>)
    requires multiset(eps) == multiset(eps')
    ensures multiset(NamesOf(eps)) == multiset(NamesOf(eps'))
  {
    RearrangedLength(eps, eps');
    if eps != [] {
      var n := |eps| - 1;
      var k := TakenOutBoth(eps', eps, n);
      assert eps[..n] + eps[n + 1..] == eps[..n];
      RearrangedNames(eps[..n], eps'[..k] + eps'[k + 1..]);
      NamesTakenOut(eps, n);
      NamesTakenOut(eps', k);
    }
  }

  lemma NamesTakenOut(eps: seq<Endpoint>, k: nat)
    requires k < |eps|
    ensures multiset(NamesOf(eps)) == multiset(NamesOf(eps[..k] + eps[k + 1..])) + multiset{eps[k].name}
  {
    var names := NamesOf(eps);
    assert NamesOf(eps[..k] + eps[k + 1..]) == names[..k] + names[k + 1..];
    TakenOut(names, k);
  }

  lemma RearrangedAgrees(table: Table, eps: seq<Endpoint>, eps': seq<Endpoint>)
    requires Agrees(table, eps) && multiset(eps) == multiset(eps')
    ensures Agrees(table, eps')
  {
    forall i | 0 <= i < |eps'| ensures eps'[i].name in table && Serves(table[eps'[i].name], eps'[i]) {
      assert eps'[i] in multiset(eps);
    }
  }

  // ---------------------------------------------------------------- reload

  /** What a server line of the configuration file says. */
  function ServerLine(ep: Endpoint): Server
  {
    Server(ep.ip, ep.port, if ep.enabled then Ready else Maint, ep.weight)
  }

  function Loaded(eps: seq<Endpoint>): Table
  {
    if eps == [] then map[]
    else Loaded(eps[..|eps| - 1])[eps[|eps| - 1].name := ServerLine(eps[|eps| - 1])]
  }

  lemma {:induction false} LoadedAt(eps: seq<Endpoint>, i: nat)
    requires DistinctNames(eps) && i < |eps|
    ensures eps[i].name in Loaded(eps) && Loaded(eps)[eps[i].name] == ServerLine(eps[i])
  {
    if i < |eps| - 1 {
      LoadedAt(eps[..|eps| - 1], i);
    }
  }

  lemma LoadedAgrees(eps: seq<Endpoint>)
    requires Healthy(eps)
    ensures Agrees(Loaded(eps), eps)
  {
    SequentialDistinct(eps);
    forall i | 0 <= i < |eps| ensures eps[i].name in Loaded(eps) && Serves(Loaded(eps)[eps[i].name], eps[i]) {
      LoadedAt(eps, i);
    }
  }

  // ---------------------------------------------------------------- the cycle

  function NameLe(a: Endpoint, b: Endpoint): bool
  {
    LexLe(a.name, b.name)
  }

  function IPLe(a: Endpoint, b: Endpoint): bool
  {
    LexLe(a.ip, b.ip)
  }

  /** The endpoints are sorted, if the order asks for that. */
  ghost predicate Arranged(order: Order, eps: seq<Endpoint>)
  {
    && (order.ByName? ==> forall i, j :: 0 <= i < j < |eps| ==> LexLe(eps[i].name, eps[j].name))
    && (order.ByIP? ==> forall i, j :: 0 <= i < j < |eps| ==> LexLe(eps[i].ip, eps[j].ip))
  }

  method SortEndpoints(back: Backend, order: Order)
    modifies back`endpoints
    ensures multiset(back.endpoints) == multiset(old(back.endpoints))
    ensures Arranged(order, back.endpoints)
    ensures order.AsListed? ==> back.endpoints == old(back.endpoints)
  {
    match order
    case ByName =>
      SortedByKey(NameLe, (ep: Endpoint) => ep.name);
      SortSorted(back.endpoints, NameLe);
      back.endpoints := Sort(back.endpoints, NameLe);
    case ByIP =>
      SortedByKey(IPLe, (ep: Endpoint) => ep.ip);
      SortSorted(back.endpoints, IPLe);
      back.endpoints := Sort(back.endpoints, IPLe);
    case _ =>
  }

  lemma SortedByKey(le: (Endpoint, Endpoint) -> bool, key: Endpoint -> string)
    requires forall a, b :: le(a, b) == LexLe(key(a), key(b))
    ensures TotalPreorder(le)
  {
    forall a, b ensures le(a, b) || le(b, a) {
      LexTotal(key(a), key(b));
    }
    forall a, b, c | le(a, b) && le(b, c) ensures le(a, c) {
      LexTransitive(key(a), key(b), key(c));
    }
  }

  function Exchanged(eps: seq<Endpoint>, i: nat, j: nat): seq<Endpoint>
    requires i < |eps| && j < |eps|
  {
    eps[i := eps[j]][j := eps[i]]
  }

  lemma ExchangedKeeps(eps: seq<Endpoint>, i: nat, j: nat)
    requires i < |eps| && j <= i
    ensures var r := Exchanged(eps, i, j);
            multiset(r) == multiset(eps) && |r| == |eps| && r[i] == eps[j] && r[j] == eps[i] && r[i + 1..] == eps[i + 1..]
  {
  }

  /** Swaps each position, from the last one down, with one of those not after it. */
  method ShuffleEndpoints(back: Backend, choice: nat -> nat)
    modifies back`endpoints
    ensures multiset(back.endpoints) == multiset(old(back.endpoints))
    ensures |back.endpoints| == |old(back.endpoints)|
    ensures var n: nat := |back.endpoints|; n > 1 ==> back.endpoints[n - 1] == old(back.endpoints)[choice(n - 1) % n]
  {
    hide Exchanged;
    ghost var was, n := back.endpoints, |back.endpoints|;
    var i: nat := |back.endpoints|;
    while i > 1
      invariant i <= n == |back.endpoints|
      invariant i == n ==> back.endpoints == was
      invariant i < n ==> back.endpoints[i..][n - 1 - i] == was[choice(n - 1) % n]
      invariant multiset(back.endpoints) == multiset(was)
    {
      i := i - 1;
      var eps, j := back.endpoints, choice(i) % (i + 1);
      ExchangedKeeps(eps, i, j);
      back.endpoints := Exchanged(eps, i, j);
    }
  }

  /** A new backend with the addresses of its service. */
  method Parse(spec: Spec) returns (back: Backend)
    requires spec.config.epNaming == Sequence
    ensures fresh(back)
    ensures back.config == spec.config && back.dynamic == spec.dynamic && back.pathState == spec.pathState
    ensures OneTargetEach(back.endpoints) && AllEnabled(back.endpoints) && Sequential(back.endpoints)
    ensures Shows(back.endpoints, spec.addresses)
  {
    hide Sequential, Shows, TargetOf;
    NoEndpoints();
    back := new Backend("", 0, spec.config);
    back.dynamic, back.pathState := spec.dynamic, spec.pathState;
    for k := 0 to |spec.addresses|
      invariant back.config == spec.config && back.dynamic == spec.dynamic && back.pathState == spec.pathState
      invariant OneTargetEach(back.endpoints) && AllEnabled(back.endpoints) && Sequential(back.endpoints)
      invariant Targeted(back.endpoints) && Shows(back.endpoints, spec.addresses[..k])
    {
      var a := spec.addresses[k];
      ghost var eps := back.endpoints;
      var i := back.AcquireEndpoint(a.ip, a.port, a.targetRef);
      assert AllEnabled(back.endpoints);
      Configured(back.endpoints, i, a);
      AcquiredAt(eps, back.endpoints, i, a);
      ShowsNext(eps, back.endpoints[i := Configure(back.endpoints[i], a)], spec.addresses[..k], a, i);
      assert spec.addresses[..k + 1] == spec.addresses[..k] + [a];
      back.endpoints := back.endpoints[i := Configure(back.endpoints[i], a)];
    }
    assert spec.addresses[..|spec.addresses|] == spec.addresses;
  }

  /** The endpoint acquired is the one at the address. */
  lemma AcquiredAt(was: seq<Endpoint>, eps: seq<Endpoint>, i: nat, a: Address)
    requires Targeted(was) && Targeted(eps) && i < |eps| && eps[i].target == TargetOf(a.ip, a.port)
    ensures eps[i].ip == a.ip && eps[i].port == a.port
  {
    TargetInjective(eps[i].ip, eps[i].port, a.ip, a.port);
  }

  lemma NoEndpoints()
    ensures OneTargetEach([]) && AllEnabled([]) && Sequential([]) && Targeted([]) && Shows([], [])
  {
  }

  /** What the annotations say about an endpoint. */
  function Configure(ep: Endpoint, a: Address): Endpoint
  {
    ep.(weight := a.weight, useLabel := a.useLabel, cookieValue := a.cookieValue)
  }

  lemma Configured(eps: seq<Endpoint>, i: nat, a: Address)
    requires i < |eps| && OneTargetEach(eps) && AllEnabled(eps) && Sequential(eps)
    ensures var eps' := eps[i := Configure(eps[i], a)];
            OneTargetEach(eps') && AllEnabled(eps') && Sequential(eps')
  {
    assert NamesOf(eps[i := Configure(eps[i], a)]) == NamesOf(eps);
  }

  /** Changed backends are sorted after every update; all are shuffled, but only if the proxy is going to be reloaded. */
  method Reorder(back: Backend, order: Order, changed: bool, updated: bool)
    modifies back`endpoints
    ensures multiset(back.endpoints) == multiset(old(back.endpoints))
    ensures updated && !changed ==> back.endpoints == old(back.endpoints)
    ensures changed ==> Arranged(order, back.endpoints)
    ensures order.AsListed? || (order.Random? && updated) ==> back.endpoints == old(back.endpoints)
  {
    if !order.Random? {
      if changed {
        SortEndpoints(back, order);
      }
    } else if !updated {
      ShuffleEndpoints(back, order.choice);
    }
  }

  /**
   * Nothing about the endpoints asks for a reload: slots are updated dynamically, cookies need not be preserved, there are no
   * labels, and the proxy does what the endpoints say and accepts all commands.
   */
  ghost predicate NoReload(updater: Updater, table: Table, was: seq<Endpoint>, config: Config, dynamic: Dynamic,
                           addresses: seq<Address>)
  {
    && config.resolver == "" && dynamic.dynUpdate && !config.cookiePreserve
    && Agrees(table, was) && (forall n :: updater.outcome(n).None?)
    && (forall i :: 0 <= i < |was| ==> was[i].useLabel == "")
    && (forall k :: 0 <= k < |addresses| ==> addresses[k].useLabel == "")
  }

  /** The settings did not change, and there is a slot for each address. */
  ghost predicate HasRoom(config: Config, pathState: string, was: seq<Endpoint>, spec: Spec)
  {
    config == spec.config && pathState == spec.pathState && |Places(spec.addresses)| <= |was|
  }

  /** The dynamic update of a backend that was parsed again. */
  method Check(updater: Updater, running: Backend, cur: Backend, ghost addresses: seq<Address>) returns (ok: bool)
    requires running != cur && cur.config.epNaming == Sequence && Shows(cur.endpoints, addresses)
    requires Healthy(running.endpoints)
    requires OneTargetEach(cur.endpoints) && AllEnabled(cur.endpoints) && Sequential(cur.endpoints)
    modifies updater`table, updater`sent, cur`endpoints
    ensures Healthy(cur.endpoints) && Shows(cur.endpoints, addresses)
    ensures ok && Agrees(old(updater.table), running.endpoints) && cur.config.resolver == ""
            ==> Agrees(updater.table, cur.endpoints)
    ensures ok ==> |cur.endpoints| == |running.endpoints|
    ensures ok ==> SameConfig(running, cur) && |Places(addresses)| <= |running.endpoints|
    ensures SameConfig(running, cur) && |Places(addresses)| <= |running.endpoints|
            && (cur.config.resolver != "" || NoReload(updater, old(updater.table), running.endpoints, cur.config, cur.dynamic, addresses))
            ==> ok
  {
    hide Shows;
    ghost var new_ := cur.endpoints;
    ShowsCount(new_, addresses);
    if NoReload(updater, updater.table, running.endpoints, cur.config, cur.dynamic, addresses) {
      ShowsUnlabelled(new_, addresses);
    }
    SequentialDistinct(running.endpoints);
    ok := updater.CheckBackendPair(running, cur);
    CheckedHealthy(cur.config, running.endpoints, new_, cur.endpoints);
    CheckedShows(cur.config, running.endpoints, new_, cur.endpoints, addresses);
  }

  /** Alignment, reordering and reload, whether or not the backend itself asked for a reload. */
  method Finish(updater: Updater, cur: Backend, order: Order, changed: bool, updated: bool, ghost known: bool,
                ghost addresses: seq<Address>)
    requires Healthy(cur.endpoints) && cur.config.epNaming == Sequence
    requires known ==> Shows(cur.endpoints, addresses)
    modifies updater`table, cur`endpoints
    ensures Healthy(cur.endpoints) && (known ==> Shows(cur.endpoints, addresses))
    ensures !updated || Agrees(old(updater.table), old(cur.endpoints)) ==> Agrees(updater.table, cur.endpoints)
    ensures !updated && cur.dynamic.dynUpdate ==> Aligned(cur.dynamic, |cur.endpoints|, CountEmpty(cur.endpoints))
    ensures updated ==> updater.table == old(updater.table) && multiset(cur.endpoints) == multiset(old(cur.endpoints))
    ensures updated && !changed ==> cur.endpoints == old(cur.endpoints)
    ensures changed ==> Arranged(order, cur.endpoints)
  {
    hide Shows, LeastCovering, LeastAligned, Arranged;
    if !updated {
      ghost var parsed := cur.endpoints;
      var added := AlignSlots(cur);
      PaddedHealthy(cur.config, parsed, cur.endpoints, |cur.endpoints|);
      if known {
        PaddedShows(cur.config, parsed, cur.endpoints, addresses);
      }
    }
    ghost var eps := cur.endpoints;
    Reorder(cur, order, changed, updated);
    RearrangedHealthy(eps, cur.endpoints);
    RearrangedLength(eps, cur.endpoints);
    RearrangedEmpty(eps, cur.endpoints);
    if known {
      ShowsRearranged(eps, cur.endpoints, addresses);
    }
    if !updated {
      updater.table := Loaded(cur.endpoints);
      LoadedAgrees(cur.endpoints);
    } else if Agrees(updater.table, eps) {
      RearrangedAgrees(updater.table, eps, cur.endpoints);
    }
  }

  predicate SequenceNamed(step: Step)
  {
    step.change.Unchanged? || step.change.spec.config.epNaming == Sequence
  }

  predicate NoResolver(step: Step)
  {
    step.change.Unchanged? || step.change.spec.config.resolver == ""
  }

  /** What the backend was last parsed from, after a step. */
  function NextSpec(step: Step, spec: Option<Spec>): Option<Spec>
  {
    if step.change.Unchanged? then spec else Some(step.change.spec)
  }

  function LastSpec(steps: seq<Step>, spec: Option<Spec>): Option<Spec>
  {
    if steps == [] then spec else NextSpec(steps[|steps| - 1], LastSpec(steps[..|steps| - 1], spec))
  }

  /** The backend is what the specification says: its settings, and exactly the endpoints of its addresses enabled. */
  ghost predicate IsFrom(back: Backend, spec: Spec)
    reads back
  {
    && back.config == spec.config && back.dynamic == spec.dynamic && back.pathState == spec.pathState
    && Shows(back.endpoints, spec.addresses)
  }

  class Instance {
    const updater: Updater
    var running: Backend

    constructor (updater: Updater, running: Backend)
      ensures this.updater == updater && this.running == running
    {
      this.updater, this.running := updater, running;
    }

    ghost predicate Ready()
      reads this, running
    {
      Healthy(running.endpoints) && running.config.epNaming == Sequence
    }

    /**
     * One update. The proxy is reloaded if the backend, or anything else, cannot be updated dynamically; slots are then
     * aligned and the configuration is loaded, also for a backend that was updated or that did not change.
     */
    method Apply(step: Step, ghost spec: Option<Spec>) returns (updated: bool)
      requires Ready() && SequenceNamed(step) && (spec.Some? ==> IsFrom(running, spec.value))
      modifies this`running, running`endpoints, updater`table, updater`sent
      ensures Ready() && (fresh(running) || running == old(running))
      ensures NextSpec(step, spec).Some? ==> IsFrom(running, NextSpec(step, spec).value)
      ensures NextSpec(step, spec).Some? && Agrees(updater.table, running.endpoints)
              ==> TableShows(updater.table, NamesOf(running.endpoints), NextSpec(step, spec).value.addresses)
      ensures !updated || (Agrees(old(updater.table), old(running.endpoints)) && NoResolver(step))
              ==> Agrees(updater.table, running.endpoints)
      ensures !updated && running.dynamic.dynUpdate
              ==> Aligned(running.dynamic, |running.endpoints|, CountEmpty(running.endpoints))
      ensures updated ==> step.accepted && !step.change.Added? && |running.endpoints| == |old(running.endpoints)|
      ensures updated && step.change.Changed?
              ==> HasRoom(old(running.config), old(running.pathState), old(running.endpoints), step.change.spec)
      ensures step.change.Changed? && step.accepted
              && HasRoom(old(running.config), old(running.pathState), old(running.endpoints), step.change.spec)
              && (step.change.spec.config.resolver != ""
                  || NoReload(updater, old(updater.table), old(running.endpoints), step.change.spec.config,
                              step.change.spec.dynamic, step.change.spec.addresses))
              ==> updated
      ensures step.change.Unchanged? ==> running == old(running) && updated == step.accepted
      ensures step.change.Unchanged? && updated ==> running.endpoints == old(running.endpoints)
      ensures !step.change.Unchanged? ==> Arranged(step.order, running.endpoints)
    {
      hide Shows, Healthy, TableShows, Arranged;
      var cur := running;
      updated := step.accepted;
      match step.change {
        case Unchanged =>
        case Changed(spec) =>
          cur := Parse(spec);
          var ok := Check(updater, running, cur, spec.addresses);
          updated := ok && updated;
        case Added(spec) =>
          cur := Parse(spec);
          ParsedHealthy(cur.endpoints);
          updated := false;
      }
      ghost var eps := cur.endpoints;
      ghost var next := NextSpec(step, spec);
      ghost var addresses := if next.Some? then next.value.addresses else [];
      Finish(updater, cur, step.order, !step.change.Unchanged?, updated, next.Some?, addresses);
      if next.Some? && Agrees(updater.table, cur.endpoints) {
        AgreesShows(updater.table, cur.endpoints, addresses);
      }
      if updated {
        RearrangedLength(eps, cur.endpoints);
      }
      running := cur;
    }

    /**
     * Over any run the server names are srv001 to srvN, and if no DNS resolver is used the proxy does, slot by slot,
     * what the endpoints say. The backend has the settings that it was last parsed with, and the servers that are not in
     * maintenance are those of its addresses.
     */
    method Run(steps: seq<Step>, ghost spec: Option<Spec>)
      requires forall k :: 0 <= k < |steps| ==> SequenceNamed(steps[k])
      requires Ready() && Agrees(updater.table, running.endpoints) && (spec.Some? ==> IsFrom(running, spec.value))
      modifies this`running, running`endpoints, updater`table, updater`sent
      ensures Ready()
      ensures (forall k :: 0 <= k < |steps| ==> NoResolver(steps[k])) ==> Agrees(updater.table, running.endpoints)
      ensures LastSpec(steps, spec).Some? ==> IsFrom(running, LastSpec(steps, spec).value)
      ensures LastSpec(steps, spec).Some? && (forall k :: 0 <= k < |steps| ==> NoResolver(steps[k]))
              ==> TableShows(updater.table, NamesOf(running.endpoints), LastSpec(steps, spec).value.addresses)
    {
      hide IsFrom, TableShows, Healthy;
      for k := 0 to |steps|
        invariant Ready() && (fresh(running) || running == old(running))
        invariant (forall m :: 0 <= m < k ==> NoResolver(steps[m])) ==> Agrees(updater.table, running.endpoints)
        invariant LastSpec(steps[..k], spec).Some? ==> IsFrom(running, LastSpec(steps[..k], spec).value)
      {
        assert steps[..k + 1][..k] == steps[..k];
        var updated := Apply(steps[k], LastSpec(steps[..k], spec));
      }
      assert steps[..|steps|] == steps;
      FromShows(updater.table, running, LastSpec(steps, spec));
    }
  }

  lemma FromShows(table: Table, back: Backend, spec: Option<Spec>)
    requires spec.Some? ==> IsFrom(back, spec.value)
    ensures spec.Some? && Agrees(table, back.endpoints) ==> TableShows(table, NamesOf(back.endpoints), spec.value.addresses)
  {
    if spec.Some? && Agrees(table, back.endpoints) {
      AgreesShows(table, back.endpoints, spec.value.addresses);
    }
  }

  lemma PaddedShows(config: Config, eps: seq<Endpoint>, eps': seq<Endpoint>, addresses: seq<Address>)
    requires PaddedTo(config, eps, eps', |eps'|) && Shows(eps, addresses)
    ensures Shows(eps', addresses)
  {
    hide Shows;
    ShowsRenamed(eps, eps', addresses);
  }

  lemma CheckedShows(config: Config, was: seq<Endpoint>, new_: seq<Endpoint>, eps: seq<Endpoint>, addresses: seq<Address>)
    requires Shows(new_, addresses)
    requires SlotsKept(config, was, new_, eps) || PaddedTo(config, new_, eps, |eps|) || eps == new_
    ensures Shows(eps, addresses)
  {
    hide Shows;
    if SlotsKept(config, was, new_, eps) {
      forall i | |new_| <= i < |eps| ensures !eps[i].enabled {
        assert eps[i] == EmptySlot(config, i).(name := eps[i].name);
      }
      ShowsRenamed(new_, eps, addresses);
    } else if PaddedTo(config, new_, eps, |eps|) {
      PaddedShows(config, new_, eps, addresses);
    }
  }

  lemma ParsedHealthy(eps: seq<Endpoint>)
    requires OneTargetEach(eps) && AllEnabled(eps) && Sequential(eps)
    ensures Healthy(eps)
  {
  }

  /** The three outcomes of a dynamic update. */
  lemma CheckedHealthy(config: Config, was: seq<Endpoint>, new_: seq<Endpoint>, eps: seq<Endpoint>)
    requires Healthy(was) && OneTargetEach(new_) && AllEnabled(new_) && Sequential(new_) && config.epNaming == Sequence
    requires SlotsKept(config, was, new_, eps) || PaddedTo(config, new_, eps, |eps|) || eps == new_
    ensures Healthy(eps)
  {
    if SlotsKept(config, was, new_, eps) {
      UpdatedHealthy(config, was, new_, eps);
    } else {
      assert Healthy(new_);
      if PaddedTo(config, new_, eps, |eps|) {
        PaddedHealthy(config, new_, eps, |eps|);
      }
    }
  }

  lemma {:induction false} RearrangedEmpty(eps: seq<Endpoint>, eps': seq<Endpoint>)
    requires multiset(eps) == multiset(eps')
    ensures CountEmpty(eps) == CountEmpty(eps')
  {
    hide CountEmpty, IsEmpty;
    RearrangedLength(eps, eps');
    if eps == [] {
      assert eps' == [];
    } else {
      var n := |eps| - 1;
      var k := TakenOutBoth(eps', eps, n);
      assert eps[..n] + eps[n + 1..] == eps[..n];
      RearrangedEmpty(eps[..n], eps'[..k] + eps'[k + 1..]);
      CountEmptyTakenOut(eps, n);
      CountEmptyTakenOut(eps', k);
    }
  }

  lemma {:induction false} CountEmptyTakenOut(eps: seq<Endpoint>, k: nat)
    requires k < |eps|
    ensures CountEmpty(eps) == CountEmpty(eps[..k] + eps[k + 1..]) + (if IsEmpty(eps[k]) then 1 else 0)
  {
    hide IsEmpty;
    var n := |eps| - 1;
    var rest := eps[..k] + eps[k + 1..];
    if k == n {
      assert rest == eps[..n];
    } else {
      CountEmptyTakenOut(eps[..n], k);
      assert rest[..n - 1] == eps[..n][..k] + eps[..n][k + 1..];
    }
  }
}
