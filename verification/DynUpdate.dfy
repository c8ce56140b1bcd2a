/** Dynamic update of a backend: new endpoints go to the server slots of the running proxy, without a reload. */
module DynUpdate {
  import opened Model
  import opened Ordering
  import opened Endpoints
  import opened SlotBook

  /** Equality of everything but the source IP, which is filled in later. */
  predicate SameEndpoint(o: Endpoint, e: Endpoint)
  {
    o.(sourceIP := e.sourceIP) == e
  }

  /** The servers of `pairs` and `targets` are the enabled ones among the first n, and `empty` the others. */
  ghost predicate Scanned(was: seq<Endpoint>, n: nat, pairs: map<string, nat>, targets: seq<string>, empty: seq<int>)
  {
    && n <= |was|
    && (forall t :: t in pairs ==> pairs[t] < n && was[pairs[t]].enabled && was[pairs[t]].target == t)
    && (forall j :: 0 <= j < n && was[j].enabled ==> was[j].target in pairs && pairs[was[j].target] == j)
    && Distinct(targets)
    && (forall t :: t in targets <==> t in pairs)
    && Distinct(empty)
    && (forall j :: j in empty <==> 0 <= j < n && !was[j].enabled)
  }

  method ScanSlots(was: seq<Endpoint>) returns (pairs: map<string, nat>, targets: seq<string>, empty: seq<int>)
    requires DistinctTargets(was)
    ensures Scanned(was, |was|, pairs, targets, empty)
  {
    pairs, targets, empty := map[], [], [];
    for j := 0 to |was|
      invariant Scanned(was, j, pairs, targets, empty)
    {
      if was[j].enabled {
        assert was[j].target !in pairs;
        pairs := pairs[was[j].target := j];
        targets := targets + [was[j].target];
      } else {
        empty := empty + [j];
      }
    }
  }

  /** `found` gives the new endpoint of a target of the running backend. */
  ghost predicate Matched(new_: seq<Endpoint>, n: nat, pairs: map<string, nat>, found: map<string, nat>)
  {
    && n <= |new_|
    && (forall t :: t in found ==> found[t] < n && new_[found[t]].target == t)
    && (forall i :: 0 <= i < n && new_[i].target in pairs ==> new_[i].target in found)
  }

  /** The slots enabled in the running backend, by target. */
  ghost function SlotsOf(was: seq<Endpoint>, queue: seq<string>): set<int>
  {
    set j | 0 <= j < |was| && was[j].enabled && was[j].target in queue
  }

  /** The slots of survivors, for the first n new endpoints. */
  ghost predicate Reused(new_: seq<Endpoint>, n: nat, pairs: map<string, nat>, slot: seq<int>, added: seq<int>)
  {
    && n <= |new_| == |slot|
    && (forall i :: 0 <= i < n ==> slot[i] == if new_[i].target in pairs then pairs[new_[i].target] else -1)
    && (forall i :: n <= i < |slot| ==> slot[i] == -1)
    && Distinct(added)
    && (forall i :: i in added <==> 0 <= i < n && slot[i] < 0)
  }

  lemma ReusedBooked(was: seq<Endpoint>, new_: seq<Endpoint>, eps: seq<Endpoint>, pairs: map<string, nat>,
                     targets: seq<string>, empty: seq<int>, slot: seq<int>, added: seq<int>)
    requires OneTargetEach(new_)
    requires Scanned(was, |was|, pairs, targets, empty)
    requires Reused(new_, |new_|, pairs, slot, added)
    requires Named(was, new_, eps, slot)
    ensures Booked(was, new_, eps, slot, added, empty, SlotsOf(was, targets))
    ensures Wanted(was, eps, slot, empty, SlotsOf(was, targets), was)
  {
    var pending := SlotsOf(was, targets);
    assert forall j :: 0 <= j < |was| ==> (j in pending <==> was[j].enabled);
    assert forall i :: 0 <= i < |slot| && slot[i] >= 0 ==> slot[i] in pending && was[slot[i]].target == new_[i].target;
    assert TakenOnce(slot);
    assert forall i :: 0 <= i < |added| ==> added[i] in added;
  }

  lemma ReusedStatic(cookiePreserve: bool, was: seq<Endpoint>, new_: seq<Endpoint>, eps: seq<Endpoint>, pairs: map<string, nat>,
                     targets: seq<string>, empty: seq<int>, slot: seq<int>, added: seq<int>)
    requires Scanned(was, |was|, pairs, targets, empty) && Reused(new_, |new_|, pairs, slot, added) && |eps| == |slot|
    ensures Static(cookiePreserve, was, eps, slot, empty, SlotsOf(was, targets))
  {
    forall i | 0 <= i < |slot| && slot[i] >= 0 ensures slot[i] < |was| && slot[i] in SlotsOf(was, targets) {
      assert new_[i].target in pairs;
    }
  }

  lemma ReuseTaken(new_: seq<Endpoint>, n: nat, pairs: map<string, nat>, slot: seq<int>, added: seq<int>)
    requires Reused(new_, n, pairs, slot, added) && n < |new_| && new_[n].target in pairs
    ensures Reused(new_, n + 1, pairs, slot[n := pairs[new_[n].target]], added)
  {
  }

  lemma ReuseAdded(new_: seq<Endpoint>, n: nat, pairs: map<string, nat>, slot: seq<int>, added: seq<int>)
    requires Reused(new_, n, pairs, slot, added) && n < |new_| && new_[n].target !in pairs
    ensures Reused(new_, n + 1, pairs, slot, added + [n])
  {
    assert forall i :: 0 <= i < |added| ==> added[i] in added;
    assert forall i :: i in added + [n] <==> i in added || i == n;
  }

  /** The proxy does what the running backend says, and the new endpoints are as parsed. */
  ghost predicate Tracked(table: Table, was: seq<Endpoint>, new_: seq<Endpoint>)
  {
    DistinctNames(was) && AllEnabled(new_) && Agrees(table, was)
  }

  /** Equality of everything but endpoints and the settings of dynamic scaling. */
  ghost predicate SameConfig(running: Backend, cur: Backend)
    reads running, cur
  {
    running.config == cur.config && running.pathState == cur.pathState
  }

  class Updater {
    /** The servers of the backend in the running proxy. */
    var table: Table
    /** How many groups of commands were sent. */
    var sent: nat
    /** What happens with the n-th group: None if it is accepted, otherwise the state that the server is left with. */
    const outcome: nat -> Option<Server>

    constructor (table: Table, outcome: nat -> Option<Server>)
      ensures this.table == table && sent == 0 && this.outcome == outcome
    {
      this.table, sent, this.outcome := table, 0, outcome;
    }

    /** A group of `set server` commands. The proxy refuses those to a server it does not have. */
    method Exec(name: string, s: Server) returns (ok: bool)
      modifies this`table, this`sent
      ensures ok <==> name in old(table) && outcome(old(sent)).None?
      ensures ok ==> table == old(table)[name := s]
      ensures table - {name} == old(table) - {name}
    {
      if name !in table {
        return false;
      }
      var o := outcome(sent);
      sent := sent + 1;
      ok := o.None?;
      table := table[name := if o.None? then s else o.value];
    }

    method ExecDisable(ep: Endpoint) returns (ok: bool)
      modifies this`table, this`sent
      ensures ok <==> ep.name in old(table) && outcome(old(sent)).None?
      ensures ok ==> table == old(table)[ep.name := Server("127.0.0.1", 1023, Maint, 0)]
      ensures table - {ep.name} == old(table) - {ep.name}
    {
      ok := Exec(ep.name, Server(EMPTY_IP, EMPTY_PORT, Maint, 0));
    }

    method ExecEnable(ep: Endpoint) returns (ok: bool)
      modifies this`table, this`sent
      ensures ok <==> ep.name in old(table) && outcome(old(sent)).None?
      ensures ok ==> table == old(table)[ep.name := Server(ep.ip, ep.port, if ep.weight > 0 then Ready else Drain, ep.weight)]
      ensures table - {ep.name} == old(table) - {ep.name}
    {
      ok := Exec(ep.name, Server(ep.ip, ep.port, if ep.weight > 0 then Ready else Drain, ep.weight));
    }

    method CheckEndpointPair(cookiePreserve: bool, o: Endpoint, e: Endpoint) returns (ok: bool)
      modifies this`table, this`sent
      ensures table - {e.name} == old(table) - {e.name}
      ensures ok && o.name == e.name && e.enabled && o.name in old(table) && Serves(old(table)[o.name], o)
              ==> e.name in table && table == old(table)[e.name := table[e.name]] && Serves(table[e.name], e)
      ensures ok && o.enabled ==> Replaces(cookiePreserve, o, e)
      ensures (exists ip :: o == e.(sourceIP := ip)) ==> ok && table == old(table) && sent == old(sent)
      ensures !(exists ip :: o == e.(sourceIP := ip)) && cookiePreserve && o.cookieValue != e.cookieValue
              ==> !ok && table == old(table) && sent == old(sent)
      ensures !cookiePreserve && o.useLabel == "" && e.useLabel == "" && e.name in old(table) && outcome(old(sent)).None?
              ==> ok
    {
      if SameEndpoint(o, e) {
        return true;
      }
      if cookiePreserve && o.cookieValue != e.cookieValue {
        return false;
      }
      ok := ExecEnable(e);
      ok := ok && o.useLabel == "" && e.useLabel == "";
    }

    /** Nothing asks for a reload: cookies need not be preserved, there are no labels, the proxy accepts all commands. */
    ghost predicate Smooth(was: seq<Endpoint>, new_: seq<Endpoint>, cookiePreserve: bool)
    {
      && !cookiePreserve
      && (forall n :: outcome(n).None?)
      && (forall i :: 0 <= i < |was| ==> was[i].useLabel == "")
      && (forall i :: 0 <= i < |new_| ==> new_[i].useLabel == "")
    }

    /** Gives the new endpoints the names of the slots that already serve their targets. */
    method ReuseSlots(cur: Backend, was: seq<Endpoint>, pairs: map<string, nat>)
        returns (found: map<string, nat>, added: seq<int>, ghost slot: seq<int>)
      requires forall t :: t in pairs ==> pairs[t] < |was|
      modifies cur`endpoints
      ensures Matched(old(cur.endpoints), |old(cur.endpoints)|, pairs, found)
      ensures Reused(old(cur.endpoints), |old(cur.endpoints)|, pairs, slot, added)
      ensures Named(was, old(cur.endpoints), cur.endpoints, slot)
    {
      ghost var new_ := cur.endpoints;
      found, added := map[], [];
      slot := seq(|new_|, i => -1);
      for i := 0 to |cur.endpoints|
        invariant |cur.endpoints| == |new_|
        invariant Matched(new_, i, pairs, found)
        invariant Reused(new_, i, pairs, slot, added)
        invariant Named(was, new_, cur.endpoints, slot)
      {
        var ep := cur.endpoints[i];
        if ep.target in pairs {
          ReuseTaken(new_, i, pairs, slot, added);
          NamedTaken(was, new_, cur.endpoints, slot, i, pairs[ep.target]);
          found := found[ep.target := i];
          cur.endpoints := cur.endpoints[i := ep.(name := was[pairs[ep.target]].name)];
          slot := slot[i := pairs[ep.target]];
        } else {
          ReuseAdded(new_, i, pairs, slot, added);
          added := added + [i];
        }
      }
    }

    /** Removes, updates or replaces the endpoint of one slot. */
    method UpdateSlot(cur: Backend, was: seq<Endpoint>, j: nat, found: Option<nat>, added: seq<int>, empty: seq<int>,
                      ghost new_: seq<Endpoint>, ghost slot: seq<int>, ghost pending: set<int>, ghost want: seq<Endpoint>,
                      ghost agree: bool, ghost fine: bool)
        returns (ok: bool, added': seq<int>, empty': seq<int>, ghost slot': seq<int>, ghost want': seq<Endpoint>)
      requires Booked(was, new_, cur.endpoints, slot, added, empty, pending)
      requires fine ==> Static(cur.config.cookiePreserve, was, cur.endpoints, slot, empty, pending)
      requires Wanted(was, cur.endpoints, slot, empty, pending, want)
      requires agree ==> DistinctNames(was) && AllEnabled(new_) && Serving(table, was, want)
      requires j in pending
      requires match found
               case Some(i) => i < |new_| && new_[i].target == was[j].target
               case None => forall i :: 0 <= i < |new_| ==> new_[i].target != was[j].target
      modifies this`table, this`sent, cur`endpoints
      ensures Booked(was, new_, cur.endpoints, slot', added', empty', pending - {j})
      ensures Wanted(was, cur.endpoints, slot', empty', pending - {j}, want')
      ensures agree && ok ==> Serving(table, was, want')
      ensures agree && Smooth(was, new_, cur.config.cookiePreserve) ==> ok
      ensures fine && ok ==> Static(cur.config.cookiePreserve, was, cur.endpoints, slot', empty', pending - {j})
    {
      added', empty', slot', want' := added, empty, slot, want;
      ghost var eps := cur.endpoints;
      if found.None? && added == [] {
        PendingUntaken(was, new_, slot, pending, j);
        StepFreed(was, new_, cur.endpoints, slot, added, empty, pending, j);
        ok := ExecDisable(was[j]);
        ghost var freed := was[j].(enabled := false);
        WantFreed(was, cur.endpoints, slot, empty, pending, want, j, freed);
        if agree && ok {
          OneServerChanged(old(table), table, was, want, j, table[was[j].name], freed);
        }
        want' := want[j := freed];
        ok := ok && was[j].useLabel == "";
        if fine && ok {
          StaticFreed(cur.config.cookiePreserve, was, eps, slot, empty, pending, j);
        }
        empty' := empty + [j];
        return;
      }
      var i;
      if found.Some? {
        i := found.value;
        assert slot[i] == j;
        StepSurvivor(was, new_, cur.endpoints, slot, added, empty, pending, i, j);
        WantSurvivor(was, cur.endpoints, slot, empty, pending, want, i, j);
      } else {
        PendingUntaken(was, new_, slot, pending, j);
        i := added[0];
        StepTaken(was, new_, cur.endpoints, slot, added, empty, empty, pending, j);
        var ep := cur.endpoints[i].(name := was[j].name);
        assert i in added;
        WantTaken(was, cur.endpoints, slot, empty, empty, pending, want, i, j, ep);
        cur.endpoints := cur.endpoints[i := ep];
        slot' := slot[i := j];
        added' := added[1..];
      }
      want' := want[j := cur.endpoints[i]];
      ok := CheckEndpointPair(cur.config.cookiePreserve, was[j], cur.endpoints[i]);
      if agree && ok {
        assert want[j] == was[j];
        OneServerChanged(old(table), table, was, want, j, table[was[j].name], cur.endpoints[i]);
      }
      if fine && ok {
        if found.Some? {
          StaticSurvivor(cur.config.cookiePreserve, was, eps, slot, empty, pending, i, j);
        } else {
          StaticTaken(cur.config.cookiePreserve, was, eps, slot, empty, empty, pending, i, j, cur.endpoints[i]);
        }
      }
    }

    /** All the slots in use, in the order of their targets. */
    method UpdateSlots(cur: Backend, was: seq<Endpoint>, pairs: map<string, nat>, found: map<string, nat>,
                       targets: seq<string>, added: seq<int>, empty: seq<int>,
                       ghost new_: seq<Endpoint>, ghost slot: seq<int>, ghost agree: bool)
        returns (ok: bool, added': seq<int>, empty': seq<int>, ghost slot': seq<int>, ghost want': seq<Endpoint>)
      requires Scanned(was, |was|, pairs, targets, empty)
      requires Matched(new_, |new_|, pairs, found)
      requires Booked(was, new_, cur.endpoints, slot, added, empty, SlotsOf(was, targets))
      requires Wanted(was, cur.endpoints, slot, empty, SlotsOf(was, targets), was)
      requires agree ==> DistinctNames(was) && AllEnabled(new_) && Serving(table, was, was)
      requires Static(cur.config.cookiePreserve, was, cur.endpoints, slot, empty, SlotsOf(was, targets))
      modifies this`table, this`sent, cur`endpoints
      ensures ok ==> Static(cur.config.cookiePreserve, was, cur.endpoints, slot', empty', {})
      ensures Booked(was, new_, cur.endpoints, slot', added', empty', {})
      ensures Wanted(was, cur.endpoints, slot', empty', {}, want')
      ensures agree && ok ==> Serving(table, was, want')
      ensures agree && Smooth(was, new_, cur.config.cookiePreserve) ==> ok
    {
      ok, added', empty', slot', want' := true, added, empty, slot, was;
      for k := 0 to |targets|
        invariant Booked(was, new_, cur.endpoints, slot', added', empty', SlotsOf(was, targets[k..]))
        invariant ok ==> Static(cur.config.cookiePreserve, was, cur.endpoints, slot', empty', SlotsOf(was, targets[k..]))
        invariant Wanted(was, cur.endpoints, slot', empty', SlotsOf(was, targets[k..]), want')
        invariant agree && ok ==> Serving(table, was, want')
        invariant agree && Smooth(was, new_, cur.config.cookiePreserve) ==> ok
      {
        var t := targets[k];
        assert t in targets;
        var i := if t in found then Some(found[t]) else None;
        NextSlot(was, pairs, targets, empty, k);
        MatchOf(new_, pairs, found, t);
        var done;
        done, added', empty', slot', want' :=
          UpdateSlot(cur, was, pairs[t], i, added', empty', new_, slot', SlotsOf(was, targets[k..]), want', agree && ok, ok);
        ok := ok && done;
      }
      assert SlotsOf(was, targets[|targets|..]) == {};
    }

    /** The endpoints still waiting go to the free slots, of which there are enough. */
    method EnableAdded(cur: Backend, was: seq<Endpoint>, added: seq<int>, empty: seq<int>,
                       ghost new_: seq<Endpoint>, ghost slot: seq<int>, ghost want: seq<Endpoint>, ghost agree: bool,
                       ghost fine: bool)
        returns (ok: bool, ghost slot': seq<int>, ghost want': seq<Endpoint>)
      requires Booked(was, new_, cur.endpoints, slot, added, empty, {})
      requires fine ==> Static(cur.config.cookiePreserve, was, cur.endpoints, slot, empty, {})
      requires Wanted(was, cur.endpoints, slot, empty, {}, want)
      requires agree ==> DistinctNames(was) && AllEnabled(new_) && Serving(table, was, want)
      requires |added| <= |empty|
      modifies this`table, this`sent, cur`endpoints
      ensures Booked(was, new_, cur.endpoints, slot', [], empty[|added|..], {})
      ensures fine && ok ==> Static(cur.config.cookiePreserve, was, cur.endpoints, slot', empty[|added|..], {})
      ensures Wanted(was, cur.endpoints, slot', empty[|added|..], {}, want')
      ensures agree && ok ==> Serving(table, was, want')
      ensures agree && Smooth(was, new_, cur.config.cookiePreserve) ==> ok
    {
      ok, slot', want' := true, slot, want;
      for k := 0 to |added|
        invariant Booked(was, new_, cur.endpoints, slot', added[k..], empty[k..], {})
        invariant fine && ok ==> Static(cur.config.cookiePreserve, was, cur.endpoints, slot', empty[k..], {})
        invariant Wanted(was, cur.endpoints, slot', empty[k..], {}, want')
        invariant agree && ok ==> Serving(table, was, want')
        invariant agree && Smooth(was, new_, cur.config.cookiePreserve) ==> ok
      {
        var done;
        assert added[k..][1..] == added[k + 1..] && empty[k..][1..] == empty[k + 1..];
        done, slot', want' := EnableOne(cur, was, added[k], empty[k], new_, slot', added[k..], empty[k..], want',
                                         agree && ok, fine && ok);
        ok := ok && done;
      }
    }

    method EnableOne(cur: Backend, was: seq<Endpoint>, i: int, j: int,
                     ghost new_: seq<Endpoint>, ghost slot: seq<int>, ghost added: seq<int>, ghost empty: seq<int>,
                     ghost want: seq<Endpoint>, ghost agree: bool, ghost fine: bool)
        returns (ok: bool, ghost slot': seq<int>, ghost want': seq<Endpoint>)
      requires Booked(was, new_, cur.endpoints, slot, added, empty, {})
      requires fine ==> Static(cur.config.cookiePreserve, was, cur.endpoints, slot, empty, {})
      requires Wanted(was, cur.endpoints, slot, empty, {}, want)
      requires agree ==> DistinctNames(was) && AllEnabled(new_) && Serving(table, was, want)
      requires added != [] && empty != [] && i == added[0] && j == empty[0]
      modifies this`table, this`sent, cur`endpoints
      ensures Booked(was, new_, cur.endpoints, slot', added[1..], empty[1..], {})
      ensures fine && ok ==> Static(cur.config.cookiePreserve, was, cur.endpoints, slot', empty[1..], {})
      ensures Wanted(was, cur.endpoints, slot', empty[1..], {}, want')
      ensures agree && ok ==> Serving(table, was, want')
      ensures agree && Smooth(was, new_, cur.config.cookiePreserve) ==> ok
    {
      assert i in added && j in empty;
      assert {} - {j} == {};
      StepTaken(was, new_, cur.endpoints, slot, added, empty, empty[1..], {}, j);
      var ep := cur.endpoints[i].(name := was[j].name);
      ghost var eps := cur.endpoints;
      WantTaken(was, cur.endpoints, slot, empty, empty[1..], {}, want, i, j, ep);
      cur.endpoints := cur.endpoints[i := ep];
      slot', want' := slot[i := j], want[j := ep];
      if cur.config.cookiePreserve && ep.cookieValue != was[j].cookieValue {
        return false, slot', want';
      }
      ok := ExecEnable(ep);
      if agree && ok {
        OneServerChanged(old(table), table, was, want, j, table[was[j].name], ep);
      }
      ok := ok && ep.useLabel == "";
      if fine && ok {
        StaticTaken(cur.config.cookiePreserve, was, eps, slot, empty, empty[1..], {}, i, j, ep);
      }
    }

    /** The slot j becomes an empty endpoint of the new backend. */
    method CopyOne(cur: Backend, was: seq<Endpoint>, j: nat,
                   ghost new_: seq<Endpoint>, ghost slot: seq<int>, ghost empty: seq<int>, ghost want: seq<Endpoint>,
                   ghost agree: bool)
      requires Filled(cur.config, was, new_, cur.endpoints, slot) && Accounted(|was|, slot, empty, {})
      requires agree ==> FilledWant(cur.endpoints, slot, want) && FreeWant(empty, want)
      requires empty != [] && j == empty[0] && j < |was|
      modifies cur`endpoints
      ensures Filled(cur.config, was, new_, cur.endpoints, slot + [j]) && Accounted(|was|, slot + [j], empty[1..], {})
      ensures agree ==> FilledWant(cur.endpoints, slot + [j], want) && FreeWant(empty[1..], want)
    {
      var eps := cur.endpoints;
      ghost var ep := EmptySlot(cur.config, |eps|).(name := was[j].name);
      assert j in empty;
      FillOne(cur.config, was, new_, eps, slot, j);
      AccountOne(|was|, slot, empty);
      if agree {
        WantOne(eps, slot, empty, want, ep);
      }
      cur.AddEmptyEndpoint();
      cur.endpoints := cur.endpoints[|eps| := cur.endpoints[|eps|].(name := was[j].name)];
      assert cur.endpoints == eps + [ep];
    }

    /** The free slots left over become empty endpoints of the new backend. */
    method CopyEmpty(cur: Backend, was: seq<Endpoint>, from: nat, empty: seq<int>,
                     ghost new_: seq<Endpoint>, ghost slot: seq<int>, ghost want: seq<Endpoint>, ghost agree: bool)
        returns (ghost slot': seq<int>)
      requires from <= |empty|
      requires Filled(cur.config, was, new_, cur.endpoints, slot) && Accounted(|was|, slot, empty[from..], {})
      requires agree ==> FilledWant(cur.endpoints, slot, want) && FreeWant(empty[from..], want)
      modifies cur`endpoints
      ensures Filled(cur.config, was, new_, cur.endpoints, slot') && Permuted(was, cur.endpoints, slot')
      ensures |slot| <= |slot'| && slot'[..|slot|] == slot
      ensures forall i :: |slot| <= i < |slot'| ==> slot'[i] in empty[from..]
      ensures agree ==> FilledWant(cur.endpoints, slot', want)
    {
      slot' := slot;
      for m := from to |empty|
        invariant Filled(cur.config, was, new_, cur.endpoints, slot') && Accounted(|was|, slot', empty[m..], {})
        invariant |slot| <= |slot'| && slot'[..|slot|] == slot
        invariant forall i :: |slot| <= i < |slot'| ==> slot'[i] in empty[from..]
        invariant agree ==> FilledWant(cur.endpoints, slot', want) && FreeWant(empty[m..], want)
      {
        assert empty[m] in empty[m..] && empty[m..][1..] == empty[m + 1..];
        assert empty[from..][m - from] == empty[m];
        CopyOne(cur, was, empty[m], new_, slot', empty[m..], want, agree);
        slot' := slot' + [empty[m]];
      }
      FilledPermuted(cur.config, was, new_, cur.endpoints, slot');
    }

    /** First half: survivors stay, and the other slots in use get a new endpoint or are freed. */
    method UpdateInUse(cur: Backend, was: seq<Endpoint>, ghost new_: seq<Endpoint>, ghost agree: bool)
        returns (ok: bool, added: seq<int>, empty: seq<int>, ghost slot: seq<int>, ghost want: seq<Endpoint>)
      requires DistinctTargets(was) && OneTargetEach(new_) && new_ == cur.endpoints
      requires agree ==> DistinctNames(was) && AllEnabled(new_) && Serving(table, was, was)
      modifies this`table, this`sent, cur`endpoints
      ensures Booked(was, new_, cur.endpoints, slot, added, empty, {})
      ensures ok ==> Static(cur.config.cookiePreserve, was, cur.endpoints, slot, empty, {})
      ensures Wanted(was, cur.endpoints, slot, empty, {}, want)
      ensures agree && ok ==> Serving(table, was, want)
      ensures agree && Smooth(was, new_, cur.config.cookiePreserve) ==> ok
    {
      var pairs, targets, free := ScanSlots(was);
      var found, new_added, slot1 := ReuseSlots(cur, was, pairs);
      var sorted := SortNames(targets);
      ScannedSorted(was, pairs, targets, sorted, free);
      ReusedBooked(was, new_, cur.endpoints, pairs, sorted, free, slot1, new_added);
      ReusedStatic(cur.config.cookiePreserve, was, new_, cur.endpoints, pairs, sorted, free, slot1, new_added);
      ok, added, empty, slot, want := UpdateSlots(cur, was, pairs, found, sorted, new_added, free, new_, slot1, agree);
    }

    /** Second half: the endpoints still waiting go to free slots, and the free slots left become empty endpoints. */
    method FillFree(cur: Backend, was: seq<Endpoint>, added: seq<int>, empty: seq<int>,
                    ghost new_: seq<Endpoint>, ghost slot: seq<int>, ghost want: seq<Endpoint>, ghost agree: bool,
                    ghost fine: bool)
        returns (ok: bool, ghost slot': seq<int>, ghost want': seq<Endpoint>)
      requires Booked(was, new_, cur.endpoints, slot, added, empty, {})
      requires fine ==> Static(cur.config.cookiePreserve, was, cur.endpoints, slot, empty, {})
      requires Wanted(was, cur.endpoints, slot, empty, {}, want)
      requires agree ==> DistinctNames(was) && AllEnabled(new_) && Serving(table, was, want)
      requires |new_| <= |was|
      modifies this`table, this`sent, cur`endpoints
      ensures Permuted(was, cur.endpoints, slot') && Filled(cur.config, was, new_, cur.endpoints, slot')
      ensures SurvivorsStay(was, new_, slot'[..|new_|])
      ensures fine && ok && DistinctNames(was) ==> StaticKept(cur.config.cookiePreserve, was, cur.endpoints, |new_|)
      ensures agree && ok ==> Agrees(table, cur.endpoints)
      ensures agree && Smooth(was, new_, cur.config.cookiePreserve) ==> ok
    {
      SlotsBalance(|was|, slot, added, empty);
      ghost var slot1;
      ok, slot1, want' := EnableAdded(cur, was, added, empty, new_, slot, want, agree, fine);
      ghost var before := cur.endpoints;
      BookedFilled(cur.config, was, new_, cur.endpoints, slot1, empty[|added|..]);
      if agree {
        WantedFilled(was, new_, cur.endpoints, slot1, empty[|added|..], want');
      }
      slot' := CopyEmpty(cur, was, |added|, empty, new_, slot1, want', agree);
      assert slot'[..|new_|] == slot1;
      if fine && ok && DistinctNames(was) {
        StaticOutcome(cur.config.cookiePreserve, cur.config, was, new_, before, slot1, empty[|added|..], cur.endpoints, slot');
      }
      if agree && ok {
        FilledAgrees(cur.config, table, was, new_, cur.endpoints, slot', want');
      }
    }

    /**
     * The dynamic update itself: the new endpoints take the slots of the running backend, one each, survivors keep
     * theirs, and what is left is filled with empty endpoints.
     */
    method AssignSlots(running: Backend, cur: Backend) returns (ok: bool)
      requires running != cur
      requires DistinctTargets(running.endpoints) && OneTargetEach(cur.endpoints)
      requires |cur.endpoints| <= |running.endpoints|
      modifies this`table, this`sent, cur`endpoints
      ensures SlotsKept(cur.config, running.endpoints, old(cur.endpoints), cur.endpoints)
      ensures ok && DistinctNames(running.endpoints)
              ==> StaticKept(cur.config.cookiePreserve, running.endpoints, cur.endpoints, |old(cur.endpoints)|)
      ensures Tracked(old(table), running.endpoints, old(cur.endpoints)) && ok ==> Agrees(table, cur.endpoints)
      ensures Tracked(old(table), running.endpoints, old(cur.endpoints))
              && Smooth(running.endpoints, old(cur.endpoints), cur.config.cookiePreserve)
              ==> ok
    {
      ghost var new_ := cur.endpoints;
      ghost var agree := Tracked(table, running.endpoints, new_);
      var was := running.endpoints;
      var ok1, added, empty, slot, want := UpdateInUse(cur, was, new_, agree);
      var ok2, slot2, want2 := FillFree(cur, was, added, empty, new_, slot, want, agree && ok1, ok1);
      ok := ok1 && ok2;
      OutcomeKept(cur.config, was, new_, cur.endpoints, slot2);
    }

    /** Tries to bring the proxy from the running backend to the new one. False asks for a reload. */
    method CheckBackendPair(running: Backend, cur: Backend) returns (updated: bool)
      requires running != cur
      requires DistinctTargets(running.endpoints) && OneTargetEach(cur.endpoints)
      modifies this`table, this`sent, cur`endpoints
      ensures updated ==> SameConfig(running, cur) && |old(cur.endpoints)| <= |running.endpoints|
      // the slots
      ensures |old(cur.endpoints)| <= |running.endpoints| && cur.config.resolver == "" && cur.dynamic.dynUpdate
              ==> SlotsKept(cur.config, running.endpoints, old(cur.endpoints), cur.endpoints)
      ensures updated && cur.config.resolver != "" ==> PaddedTo(cur.config, old(cur.endpoints), cur.endpoints, |running.endpoints|)
      ensures !(|old(cur.endpoints)| <= |running.endpoints| && cur.config.resolver == "" && cur.dynamic.dynUpdate)
              && !(updated && cur.config.resolver != "")
              ==> cur.endpoints == old(cur.endpoints)
      // the proxy
      ensures Tracked(old(table), running.endpoints, old(cur.endpoints)) && updated && cur.config.resolver == ""
              ==> Agrees(table, cur.endpoints)
      ensures |old(cur.endpoints)| > |running.endpoints| || cur.config.resolver != "" || !cur.dynamic.dynUpdate
              ==> table == old(table) && sent == old(sent)
      ensures updated && cur.config.resolver == "" && cur.dynamic.dynUpdate && DistinctNames(running.endpoints)
              ==> StaticKept(cur.config.cookiePreserve, running.endpoints, cur.endpoints, |old(cur.endpoints)|)
      // when a reload is not asked for
      ensures Tracked(old(table), running.endpoints, old(cur.endpoints)) && SameConfig(running, cur)
              && |old(cur.endpoints)| <= |running.endpoints| && cur.config.resolver == "" && cur.dynamic.dynUpdate
              && Smooth(running.endpoints, old(cur.endpoints), cur.config.cookiePreserve)
              ==> updated
      ensures cur.config.resolver != ""
              ==> (updated <==> SameConfig(running, cur) && |old(cur.endpoints)| <= |running.endpoints|)
      ensures cur.config.resolver == "" && !cur.dynamic.dynUpdate
              ==> (updated <==> SameConfig(running, cur) && running.endpoints == old(cur.endpoints))
    {
      updated := running.config == cur.config && running.pathState == cur.pathState;
      if |running.endpoints| < |cur.endpoints| {
        return false;
      }
      if cur.config.resolver != "" {
        if updated {
          PadTo(cur, |running.endpoints|);
        }
        return;
      }
      if !cur.dynamic.dynUpdate {
        updated := updated && running.endpoints == cur.endpoints;
        return;
      }
      var ok := AssignSlots(running, cur);
      updated := updated && ok;
    }

    method PadTo(cur: Backend, n: nat)
      requires |cur.endpoints| <= n
      modifies cur`endpoints
      ensures PaddedTo(cur.config, old(cur.endpoints), cur.endpoints, n)
    {
      for i := |cur.endpoints| to n
        invariant PaddedTo(cur.config, old(cur.endpoints), cur.endpoints, i)
      {
        cur.AddEmptyEndpoint();
      }
    }
  }

  /** The slots still to be looked at after the k-th target. */
  lemma NextSlot(was: seq<Endpoint>, pairs: map<string, nat>, targets: seq<string>, empty: seq<int>, k: nat)
    requires Scanned(was, |was|, pairs, targets, empty) && k < |targets|
    ensures targets[k] in pairs
    ensures pairs[targets[k]] in SlotsOf(was, targets[k..])
    ensures SlotsOf(was, targets[k..]) - {pairs[targets[k]]} == SlotsOf(was, targets[k + 1..])
  {
    assert targets[k] in targets;
    assert targets[k..] == [targets[k]] + targets[k + 1..];
    assert targets[k] !in targets[k + 1..];
  }

  lemma ScannedSorted(was: seq<Endpoint>, pairs: map<string, nat>, targets: seq<string>, sorted: seq<string>, empty: seq<int>)
    requires Scanned(was, |was|, pairs, targets, empty)
    requires SortedBy(sorted, LexLess) && forall t :: t in sorted <==> t in targets
    ensures Scanned(was, |was|, pairs, sorted, empty)
  {
  }

  lemma MatchOf(new_: seq<Endpoint>, pairs: map<string, nat>, found: map<string, nat>, t: string)
    requires Matched(new_, |new_|, pairs, found) && t in pairs
    ensures t in found ==> found[t] < |new_| && new_[found[t]].target == t
    ensures t !in found ==> forall i :: 0 <= i < |new_| ==> new_[i].target != t
  {
  }
}
