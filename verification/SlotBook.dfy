/**
 * Bookkeeping of a dynamic update: which server slot of the running backend each new endpoint takes.
 *
 * `was` are the endpoints of the running backend, one per slot, `new_` the endpoints of the new one as
 * parsed, and `eps` the same endpoints while they receive their server names. `slot[i]` is the slot given to
 * the i-th new endpoint, or -1.
 */
module SlotBook {
  import opened Endpoints

  datatype ServerState = Ready | Drain | Maint

  datatype Server = Server(addr: string, port: nat, state: ServerState, weight: int)

  type Table = map<string, Server>

  /** The server does what the endpoint's configuration says. */
  predicate Serves(s: Server, ep: Endpoint)
  {
    if ep.enabled then
      && s.addr == ep.ip && s.port == ep.port && s.weight == ep.weight
      && (if ep.weight > 0 then s.state == Ready else s.state != Maint)
    else
      s.addr == EMPTY_IP && s.port == EMPTY_PORT && s.state == Maint
  }

  /** The servers of the running proxy agree, slot by slot, with the endpoints of a backend. */
  ghost predicate Agrees(table: Table, eps: seq<Endpoint>)
  {
    forall i :: 0 <= i < |eps| ==> eps[i].name in table && Serves(table[eps[i].name], eps[i])
  }

  ghost predicate Distinct<T>(s: seq<T>)
  {
    forall i, j :: 0 <= i < j < |s| ==> s[i] != s[j]
  }

  // ---------------------------------------------------------------- the assignment

  /** The new endpoints are as parsed, but for the name of the slot each of them has taken. */
  ghost predicate Named(was: seq<Endpoint>, new_: seq<Endpoint>, eps: seq<Endpoint>, slot: seq<int>)
  {
    && |eps| == |new_| == |slot|
    && (forall i :: 0 <= i < |slot| ==> -1 <= slot[i] < |was|)
    && (forall i :: 0 <= i < |slot| ==> eps[i] == if slot[i] < 0 then new_[i] else new_[i].(name := was[slot[i]].name))
  }

  /** No slot is taken twice. */
  ghost predicate TakenOnce(slot: seq<int>)
  {
    forall i, j :: 0 <= i < j < |slot| && slot[i] >= 0 ==> slot[i] != slot[j]
  }

  /** An endpoint whose target was already served has the slot that served it. */
  ghost predicate SurvivorsStay(was: seq<Endpoint>, new_: seq<Endpoint>, slot: seq<int>)
    requires |slot| == |new_|
  {
    forall i, j :: 0 <= i < |new_| && 0 <= j < |was| && was[j].enabled && was[j].target == new_[i].target ==> slot[i] == j
  }

  /** `added` lists the new endpoints that still need a slot. */
  ghost predicate Waiting(slot: seq<int>, added: seq<int>)
  {
    && Distinct(added)
    && (forall i :: 0 <= i < |added| ==> 0 <= added[i] < |slot|)
    && (forall i :: 0 <= i < |slot| ==> (slot[i] < 0 <==> i in added))
  }

  /** Every slot is free for reuse (listed in `empty`), taken, or not looked at yet. */
  ghost predicate Accounted(n: nat, slot: seq<int>, empty: seq<int>, pending: set<int>)
  {
    && Distinct(empty)
    && (forall j :: j in empty ==> 0 <= j < n && j !in slot && j !in pending)
    && (forall j :: 0 <= j < n ==> j in empty || j in slot || j in pending)
  }

  /** A slot not looked at yet can only have been taken by the endpoint with its target. */
  ghost predicate PendingOk(was: seq<Endpoint>, new_: seq<Endpoint>, slot: seq<int>, pending: set<int>)
    requires |slot| == |new_|
  {
    && (forall j :: j in pending ==> 0 <= j < |was| && was[j].enabled)
    && (forall i :: 0 <= i < |slot| && slot[i] in pending ==> was[slot[i]].target == new_[i].target)
  }

  ghost predicate Booked(was: seq<Endpoint>, new_: seq<Endpoint>, eps: seq<Endpoint>, slot: seq<int>,
                         added: seq<int>, empty: seq<int>, pending: set<int>)
  {
    && Named(was, new_, eps, slot)
    && TakenOnce(slot)
    && SurvivorsStay(was, new_, slot)
    && Waiting(slot, added)
    && Accounted(|was|, slot, empty, pending)
    && PendingOk(was, new_, slot, pending)
  }

  // ---------------------------------------------------------------- what the servers do

  /** `want[j]` is the endpoint that the server of slot j agrees with. */
  ghost predicate Serving(table: Table, was: seq<Endpoint>, want: seq<Endpoint>)
  {
    && |want| == |was|
    && (forall j :: 0 <= j < |was| ==> was[j].name in table && Serves(table[was[j].name], want[j]))
  }

  /** Taken slots serve the endpoint that took them, free slots serve nothing, the others what they did. */
  ghost predicate Wanted(was: seq<Endpoint>, eps: seq<Endpoint>, slot: seq<int>, empty: seq<int>, pending: set<int>,
                         want: seq<Endpoint>)
  {
    && |want| == |was| && |eps| == |slot|
    && (forall i :: 0 <= i < |slot| ==> slot[i] < |was|)
    && (forall i :: 0 <= i < |slot| && slot[i] >= 0 && slot[i] !in pending ==> want[slot[i]] == eps[i])
    && (forall j :: 0 <= j < |was| && j in empty ==> !want[j].enabled)
    && (forall j :: 0 <= j < |was| && j in pending ==> want[j] == was[j])
  }

  /** A command to one server changes what that slot serves and no other. */
  lemma OneServerChanged(table: Table, table': Table, was: seq<Endpoint>, want: seq<Endpoint>, j: nat, s: Server, w: Endpoint)
    requires DistinctNames(was) && Serving(table, was, want) && j < |was|
    requires table' == table[was[j].name := s] && Serves(s, w)
    ensures Serving(table', was, want[j := w])
  {
  }

  // ---------------------------------------------------------------- what cannot change without a reload

  /**
   * The endpoint e may take the slot of o without a reload: rules that choose a server by its label stay right, and so
   * does the cookie of the server if cookies have to be preserved.
   */
  predicate Replaces(cookiePreserve: bool, o: Endpoint, e: Endpoint)
  {
    && (cookiePreserve ==> e.cookieValue == o.cookieValue)
    && e.useLabel == if o.enabled then o.useLabel else ""
  }

  /** Every slot taken may be taken without a reload, and every slot freed may be freed. */
  ghost predicate Static(cookiePreserve: bool, was: seq<Endpoint>, eps: seq<Endpoint>, slot: seq<int>, empty: seq<int>,
                         pending: set<int>)
  {
    && |eps| == |slot|
    && (forall i :: 0 <= i < |slot| ==> slot[i] < |was|)
    && (forall i :: 0 <= i < |slot| && slot[i] >= 0 && slot[i] !in pending ==> Replaces(cookiePreserve, was[slot[i]], eps[i]))
    && (forall j :: j in empty && 0 <= j < |was| && was[j].enabled ==> was[j].useLabel == "")
  }

  lemma StaticSurvivor(cookiePreserve: bool, was: seq<Endpoint>, eps: seq<Endpoint>, slot: seq<int>, empty: seq<int>,
                       pending: set<int>, i: nat, j: nat)
    requires Static(cookiePreserve, was, eps, slot, empty, pending) && TakenOnce(slot)
    requires i < |slot| && slot[i] == j && Replaces(cookiePreserve, was[j], eps[i])
    ensures Static(cookiePreserve, was, eps, slot, empty, pending - {j})
  {
  }

  lemma StaticTaken(cookiePreserve: bool, was: seq<Endpoint>, eps: seq<Endpoint>, slot: seq<int>, empty: seq<int>,
                    empty': seq<int>, pending: set<int>, i: nat, j: nat, ep: Endpoint)
    requires Static(cookiePreserve, was, eps, slot, empty, pending)
    requires i < |slot| && j < |was| && j !in slot && Replaces(cookiePreserve, was[j], ep)
    requires forall k :: k in empty' ==> k in empty
    ensures Static(cookiePreserve, was, eps[i := ep], slot[i := j], empty', pending - {j})
  {
    assert forall k :: 0 <= k < |slot| ==> slot[k] in slot;
  }

  lemma StaticFreed(cookiePreserve: bool, was: seq<Endpoint>, eps: seq<Endpoint>, slot: seq<int>, empty: seq<int>,
                    pending: set<int>, j: nat)
    requires Static(cookiePreserve, was, eps, slot, empty, pending)
    requires j < |was| && j !in slot && was[j].useLabel == ""
    ensures Static(cookiePreserve, was, eps, slot, empty + [j], pending - {j})
  {
    assert forall k :: 0 <= k < |slot| ==> slot[k] in slot;
  }

  /** The outcome, by server name: the first n endpoints are new ones, the others empty. */
  ghost predicate StaticKept(cookiePreserve: bool, was: seq<Endpoint>, eps: seq<Endpoint>, n: nat)
  {
    forall i, j :: 0 <= i < |eps| && 0 <= j < |was| && eps[i].name == was[j].name ==>
                     if i < n then Replaces(cookiePreserve, was[j], eps[i]) else was[j].enabled ==> was[j].useLabel == ""
  }

  lemma StaticOutcome(cookiePreserve: bool, config: Config, was: seq<Endpoint>, new_: seq<Endpoint>, before: seq<Endpoint>,
                      slot: seq<int>, empty: seq<int>, eps: seq<Endpoint>, slot': seq<int>)
    requires DistinctNames(was) && Filled(config, was, new_, eps, slot')
    requires Named(was, new_, before, slot) && Static(cookiePreserve, was, before, slot, empty, {})
    requires |slot| <= |slot'| && slot'[..|slot|] == slot
    requires forall i :: |slot| <= i < |slot'| ==> slot'[i] in empty
    ensures StaticKept(cookiePreserve, was, eps, |new_|)
  {
    forall i, j | 0 <= i < |eps| && 0 <= j < |was| && eps[i].name == was[j].name
      ensures if i < |new_| then Replaces(cookiePreserve, was[j], eps[i]) else was[j].enabled ==> was[j].useLabel == ""
    {
      assert was[slot'[i]].name == was[j].name && slot'[i] == j;
      if i < |new_| {
        assert slot[i] == slot'[i];
        assert eps[i] == new_[i].(name := eps[i].name) && before[i] == new_[i].(name := was[j].name);
      }
    }
  }

  // ---------------------------------------------------------------- steps

  /** A slot already taken by its survivor was looked at. */
  lemma StepSurvivor(was: seq<Endpoint>, new_: seq<Endpoint>, eps: seq<Endpoint>, slot: seq<int>,
                     added: seq<int>, empty: seq<int>, pending: set<int>, i: nat, j: nat)
    requires Booked(was, new_, eps, slot, added, empty, pending)
    requires i < |slot| && slot[i] == j
    ensures Booked(was, new_, eps, slot, added, empty, pending - {j})
  {
    assert j in slot;
  }

  lemma WantSurvivor(was: seq<Endpoint>, eps: seq<Endpoint>, slot: seq<int>, empty: seq<int>, pending: set<int>,
                     want: seq<Endpoint>, i: nat, j: nat)
    requires Wanted(was, eps, slot, empty, pending, want) && TakenOnce(slot)
    requires i < |slot| && slot[i] == j && j !in empty
    ensures Wanted(was, eps, slot, empty, pending - {j}, want[j := eps[i]])
  {
  }

  /** Slot j goes to the endpoint i, the first of those waiting. */
  lemma StepTaken(was: seq<Endpoint>, new_: seq<Endpoint>, eps: seq<Endpoint>, slot: seq<int>,
                  added: seq<int>, empty: seq<int>, empty': seq<int>, pending: set<int>, j: nat)
    requires Booked(was, new_, eps, slot, added, empty, pending)
    requires added != [] && j < |was| && j !in slot
    requires (empty' == empty && j in pending) || (empty != [] && empty[0] == j && empty' == empty[1..])
    ensures var i := added[0];
            Booked(was, new_, eps[i := new_[i].(name := was[j].name)], slot[i := j], added[1..], empty', pending - {j})
  {
    assert added[0] in added;
    NamedTaken(was, new_, eps, slot, added[0], j);
    StaysTaken(was, new_, slot, pending, added[0], j);
    WaitingTaken(slot, added, j);
    AccountedTaken(|was|, slot, added[0], empty, empty', pending, j);
  }

  lemma NamedTaken(was: seq<Endpoint>, new_: seq<Endpoint>, eps: seq<Endpoint>, slot: seq<int>, i: nat, j: nat)
    requires Named(was, new_, eps, slot) && i < |slot| && slot[i] < 0 && j < |was|
    ensures Named(was, new_, eps[i := new_[i].(name := was[j].name)], slot[i := j])
  {
  }

  lemma StaysTaken(was: seq<Endpoint>, new_: seq<Endpoint>, slot: seq<int>, pending: set<int>, i: nat, j: nat)
    requires |slot| == |new_| && i < |slot| && slot[i] < 0 && j < |was| && j !in slot
    requires TakenOnce(slot) && SurvivorsStay(was, new_, slot) && PendingOk(was, new_, slot, pending)
    ensures var slot' := slot[i := j];
            TakenOnce(slot') && SurvivorsStay(was, new_, slot') && PendingOk(was, new_, slot', pending - {j})
  {
    assert forall k :: 0 <= k < |slot| ==> slot[k] in slot;
  }

  lemma WaitingTaken(slot: seq<int>, added: seq<int>, j: nat)
    requires Waiting(slot, added) && added != []
    ensures Waiting(slot[added[0] := j], added[1..])
  {
    assert forall k :: k in added <==> k == added[0] || k in added[1..];
  }

  lemma AccountedTaken(n: nat, slot: seq<int>, i: nat, empty: seq<int>, empty': seq<int>, pending: set<int>, j: nat)
    requires Accounted(n, slot, empty, pending) && i < |slot| && slot[i] < 0
    requires (empty' == empty && j in pending) || (empty != [] && empty[0] == j && empty' == empty[1..])
    ensures Accounted(n, slot[i := j], empty', pending - {j})
  {
    TakenMembers(slot, i, j);
    var slot' := slot[i := j];
    assert j !in empty' by {
      if empty' != empty {
        assert forall k :: 0 <= k < |empty'| ==> empty'[k] == empty[k + 1];
      }
    }
    assert forall k :: k in empty ==> k == j || k in empty';
    forall k | k in empty' ensures 0 <= k < n && k !in slot' && k !in pending - {j} {
      assert k in empty;
    }
    forall k | 0 <= k < n ensures k in empty' || k in slot' || k in pending - {j} {
      assert k in empty || k in slot || k in pending;
      assert k in slot' <==> k == j || k in slot;
    }
  }

  lemma TakenMembers(slot: seq<int>, i: nat, j: nat)
    requires i < |slot| && slot[i] < 0
    ensures forall k :: k >= 0 ==> (k in slot[i := j] <==> k == j || k in slot)
  {
    var slot' := slot[i := j];
    forall k | k >= 0 ensures k in slot' <==> k == j || k in slot {
      if k in slot {
        var p :| 0 <= p < |slot| && slot[p] == k;
        assert slot'[p] == k;
      }
      if k == j {
        assert slot'[i] == k;
      }
    }
  }

  lemma WantTaken(was: seq<Endpoint>, eps: seq<Endpoint>, slot: seq<int>, empty: seq<int>, empty': seq<int>,
                  pending: set<int>, want: seq<Endpoint>, i: nat, j: nat, ep: Endpoint)
    requires Wanted(was, eps, slot, empty, pending, want)
    requires i < |slot| && j < |was| && j !in slot && j !in empty'
    requires forall k :: k in empty' ==> k in empty
    ensures Wanted(was, eps[i := ep], slot[i := j], empty', pending - {j}, want[j := ep])
  {
    forall k | 0 <= k < |slot| && k != i && slot[k] >= 0 ensures slot[k] != j {
      assert slot[k] in slot;
    }
  }

  /** Slot j, which nobody took, becomes free. */
  lemma StepFreed(was: seq<Endpoint>, new_: seq<Endpoint>, eps: seq<Endpoint>, slot: seq<int>,
                  added: seq<int>, empty: seq<int>, pending: set<int>, j: nat)
    requires Booked(was, new_, eps, slot, added, empty, pending)
    requires j in pending && j !in slot
    ensures Booked(was, new_, eps, slot, added, empty + [j], pending - {j})
  {
    assert j < |was|;
    assert forall k :: k in empty + [j] <==> k in empty || k == j;
  }

  lemma WantFreed(was: seq<Endpoint>, eps: seq<Endpoint>, slot: seq<int>, empty: seq<int>, pending: set<int>,
                  want: seq<Endpoint>, j: nat, ep: Endpoint)
    requires Wanted(was, eps, slot, empty, pending, want)
    requires j < |was| && j !in slot && !ep.enabled
    ensures Wanted(was, eps, slot, empty + [j], pending - {j}, want[j := ep])
  {
  }

  /** A pending slot whose target no new endpoint has is not taken. */
  lemma PendingUntaken(was: seq<Endpoint>, new_: seq<Endpoint>, slot: seq<int>, pending: set<int>, j: int)
    requires |slot| == |new_| && PendingOk(was, new_, slot, pending) && j in pending
    requires forall i :: 0 <= i < |new_| ==> new_[i].target != was[j].target
    ensures j !in slot
  {
    forall i | 0 <= i < |slot| ensures slot[i] != j {
      assert slot[i] in pending ==> was[slot[i]].target == new_[i].target;
    }
  }

  // ---------------------------------------------------------------- counting

  ghost function Taken(slot: seq<int>): set<int>
  {
    if slot == [] then {} else
    var n := |slot| - 1;
    Taken(slot[..n]) + (if slot[n] >= 0 then {slot[n]} else {})
  }

  ghost function Untaken(slot: seq<int>): set<int>
  {
    if slot == [] then {} else
    var n := |slot| - 1;
    Untaken(slot[..n]) + (if slot[n] >= 0 then {} else {n})
  }

  ghost function Below(n: nat): set<int>
  {
    if n == 0 then {} else Below(n - 1) + {n - 1}
  }

  lemma {:induction false} TakenMeans(slot: seq<int>, x: int)
    ensures x in Taken(slot) <==> x >= 0 && x in slot
  {
    if slot != [] {
      TakenMeans(slot[..|slot| - 1], x);
      assert slot == slot[..|slot| - 1] + [slot[|slot| - 1]];
    }
  }

  lemma {:induction false} UntakenMeans(slot: seq<int>, x: int)
    ensures x in Untaken(slot) <==> 0 <= x < |slot| && slot[x] < 0
  {
    if slot != [] {
      UntakenMeans(slot[..|slot| - 1], x);
    }
  }

  lemma {:induction false} BelowMeans(n: nat, x: int)
    ensures x in Below(n) <==> 0 <= x < n
  {
    if n > 0 {
      BelowMeans(n - 1, x);
    }
  }

  lemma {:induction false} BelowCount(n: nat)
    ensures |Below(n)| == n
  {
    if n > 0 {
      BelowMeans(n - 1, n - 1);
      BelowCount(n - 1);
    }
  }

  lemma {:induction false} TakenCount(slot: seq<int>)
    requires TakenOnce(slot)
    ensures |Taken(slot)| + |Untaken(slot)| == |slot|
  {
    if slot != [] {
      var n := |slot| - 1;
      TakenCount(slot[..n]);
      TakenMeans(slot[..n], slot[n]);
      UntakenMeans(slot[..n], n);
    }
  }

  lemma {:induction false} DistinctCount(s: seq<int>)
    requires Distinct(s)
    ensures |(set x | x in s)| == |s|
  {
    if s != [] {
      var n := |s| - 1;
      DistinctCount(s[..n]);
      assert s == s[..n] + [s[n]];
      assert (set x | x in s) == (set x | x in s[..n]) + {s[n]};
    }
  }

  lemma UntakenCount(slot: seq<int>, added: seq<int>)
    requires Waiting(slot, added)
    ensures |Untaken(slot)| == |added|
  {
    DistinctCount(added);
    forall x ensures x in Untaken(slot) <==> x in added {
      UntakenMeans(slot, x);
    }
    assert Untaken(slot) == (set x | x in added);
  }

  /** Once all slots were looked at, the free ones and those taken are all of them. */
  lemma SlotsBalance(n: nat, slot: seq<int>, added: seq<int>, empty: seq<int>)
    requires forall i :: 0 <= i < |slot| ==> slot[i] < n
    requires TakenOnce(slot) && Waiting(slot, added) && Accounted(n, slot, empty, {})
    ensures |empty| + |slot| == n + |added|
  {
    TakenCount(slot);
    var free := (set x | x in empty);
    DistinctCount(empty);
    UntakenCount(slot, added);
    BelowCount(n);
    forall x ensures x in Taken(slot) <==> x >= 0 && x in slot {
      TakenMeans(slot, x);
    }
    assert free !! Taken(slot);
    forall x ensures x in free + Taken(slot) <==> x in Below(n) {
      BelowMeans(n, x);
    }
    assert free + Taken(slot) == Below(n);
  }

  // ---------------------------------------------------------------- the outcome

  /** Every slot has exactly one endpoint, which carries the name of the slot. */
  ghost predicate Permuted(was: seq<Endpoint>, eps: seq<Endpoint>, slot: seq<int>)
  {
    && |slot| == |eps| == |was|
    && (forall i :: 0 <= i < |slot| ==> 0 <= slot[i] < |was| && eps[i].name == was[slot[i]].name)
    && TakenOnce(slot)
  }

  lemma SameNames(was: seq<Endpoint>, eps: seq<Endpoint>, slot: seq<int>)
    requires Permuted(was, eps, slot)
    ensures multiset(NamesOf(eps)) == multiset(NamesOf(was))
  {
    RenamedBy(NamesOf(was), NamesOf(eps), slot);
  }

  /** A sequence indexed through a permutation has the same members, as often. */
  lemma {:induction false} RenamedBy<T>(s: seq<T>, t: seq<T>, p: seq<int>)
    requires |s| == |t| == |p|
    requires forall i :: 0 <= i < |p| ==> 0 <= p[i] < |s| && t[i] == s[p[i]]
    requires TakenOnce(p)
    ensures multiset(s) == multiset(t)
    decreases |s|
  {
    if s == [] {
      assert t == [];
    } else {
      var n := |s| - 1;
      var k := p[n];
      // the element that the last position reads is taken out of both
      var s' := s[..k] + s[k + 1..];
      var p' := seq(n, i requires 0 <= i < n => if p[i] > k then p[i] - 1 else p[i]);
      forall i | 0 <= i < n ensures 0 <= p'[i] < n && t[i] == s'[p'[i]] {
        assert p[i] != k;
      }
      assert TakenOnce(p') by {
        forall i, j | 0 <= i < j < n ensures p'[i] != p'[j] {
          assert p[i] != p[j] && p[i] != k && p[j] != k;
        }
      }
      RenamedBy(s', t[..n], p');
      assert s == s[..k] + [s[k]] + s[k + 1..];
      assert t == t[..n] + [t[n]];
    }
  }

  /** The new endpoints followed by empty ones, each in a slot of its own. */
  ghost predicate Filled(config: Config, was: seq<Endpoint>, new_: seq<Endpoint>, eps: seq<Endpoint>, slot: seq<int>)
  {
    && |new_| <= |eps| == |slot|
    && (forall i :: 0 <= i < |slot| ==> 0 <= slot[i] < |was| && eps[i].name == was[slot[i]].name)
    && TakenOnce(slot)
    && (forall i :: 0 <= i < |eps| ==> eps[i] == (if i < |new_| then new_[i] else EmptySlot(config, i)).(name := eps[i].name))
  }

  /** The servers of these slots are wanted to do what their endpoints say. */
  ghost predicate FilledWant(eps: seq<Endpoint>, slot: seq<int>, want: seq<Endpoint>)
  {
    && |eps| == |slot|
    && (forall i :: 0 <= i < |slot| ==> 0 <= slot[i] < |want|)
    && (forall i :: 0 <= i < |slot| ==> if eps[i].enabled then want[slot[i]] == eps[i] else !want[slot[i]].enabled)
  }

  ghost predicate FreeWant(empty: seq<int>, want: seq<Endpoint>)
  {
    forall k :: 0 <= k < |empty| ==> 0 <= empty[k] < |want| && !want[empty[k]].enabled
  }

  lemma WantOne(eps: seq<Endpoint>, slot: seq<int>, empty: seq<int>, want: seq<Endpoint>, ep: Endpoint)
    requires FilledWant(eps, slot, want) && FreeWant(empty, want) && empty != [] && !ep.enabled
    ensures FilledWant(eps + [ep], slot + [empty[0]], want) && FreeWant(empty[1..], want)
  {
  }

  lemma BookedFilled(config: Config, was: seq<Endpoint>, new_: seq<Endpoint>, eps: seq<Endpoint>, slot: seq<int>, empty: seq<int>)
    requires Booked(was, new_, eps, slot, [], empty, {})
    ensures Filled(config, was, new_, eps, slot)
  {
  }

  lemma WantedFilled(was: seq<Endpoint>, new_: seq<Endpoint>, eps: seq<Endpoint>, slot: seq<int>, empty: seq<int>,
                     want: seq<Endpoint>)
    requires Named(was, new_, eps, slot) && Waiting(slot, []) && AllEnabled(new_)
    requires Wanted(was, eps, slot, empty, {}, want)
    requires forall j :: j in empty ==> 0 <= j < |was|
    ensures FilledWant(eps, slot, want) && FreeWant(empty, want)
  {
    assert forall k :: 0 <= k < |empty| ==> empty[k] in empty;
    forall i | 0 <= i < |slot| ensures eps[i].enabled && want[slot[i]] == eps[i] && slot[i] >= 0 {
      assert slot[i] < 0 <==> i in [];
    }
  }

  lemma FillOne(config: Config, was: seq<Endpoint>, new_: seq<Endpoint>, eps: seq<Endpoint>, slot: seq<int>, j: nat)
    requires Filled(config, was, new_, eps, slot) && j < |was| && j !in slot
    ensures Filled(config, was, new_, eps + [EmptySlot(config, |eps|).(name := was[j].name)], slot + [j])
  {
    var eps' := eps + [EmptySlot(config, |eps|).(name := was[j].name)];
    var slot' := slot + [j];
    forall i, k | 0 <= i < k < |slot'| ensures slot'[i] != slot'[k] {
      assert slot'[i] in slot;
    }
    forall i | 0 <= i < |eps'|
      ensures eps'[i] == (if i < |new_| then new_[i] else EmptySlot(config, i)).(name := eps'[i].name)
    {
      if i < |eps| {
        assert eps'[i] == eps[i];
      }
    }
  }

  lemma AccountOne(n: nat, slot: seq<int>, empty: seq<int>)
    requires Accounted(n, slot, empty, {}) && empty != []
    ensures Accounted(n, slot + [empty[0]], empty[1..], {})
  {
    var j := empty[0];
    assert forall k :: k in empty <==> k == j || k in empty[1..];
    assert forall k :: k in slot + [j] <==> k == j || k in slot;
    assert forall i :: 0 <= i < |empty| - 1 ==> empty[1..][i] == empty[i + 1];
  }

  lemma FilledPermuted(config: Config, was: seq<Endpoint>, new_: seq<Endpoint>, eps: seq<Endpoint>, slot: seq<int>)
    requires Filled(config, was, new_, eps, slot) && Accounted(|was|, slot, [], {})
    ensures Permuted(was, eps, slot)
  {
    SlotsBalance(|was|, slot, [], []);
  }

  /** The servers agree with the new endpoints, whatever slots these are in. */
  lemma FilledAgrees(config: Config, table: Table, was: seq<Endpoint>, new_: seq<Endpoint>, eps: seq<Endpoint>,
                     slot: seq<int>, want: seq<Endpoint>)
    requires Filled(config, was, new_, eps, slot) && FilledWant(eps, slot, want) && Serving(table, was, want)
    ensures Agrees(table, eps)
  {
    forall i | 0 <= i < |eps| ensures eps[i].name in table && Serves(table[eps[i].name], eps[i]) {
      var j := slot[i];
      assert was[j].name in table && Serves(table[was[j].name], want[j]);
    }
  }

  /**
   * What a dynamic update makes of the endpoints `new_`: there are as many slots as before, the names of the slots
   * are the same ones, each used once, the endpoints are the new ones in their order and then empty ones, and a
   * target that was served has the server that served it.
   */
  ghost predicate SlotsKept(config: Config, was: seq<Endpoint>, new_: seq<Endpoint>, eps: seq<Endpoint>)
  {
    && |new_| <= |eps| == |was|
    && multiset(NamesOf(eps)) == multiset(NamesOf(was))
    && (forall i :: 0 <= i < |eps| ==> eps[i] == (if i < |new_| then new_[i] else EmptySlot(config, i)).(name := eps[i].name))
    && (forall i, j :: 0 <= i < |new_| && 0 <= j < |was| && was[j].enabled && was[j].target == new_[i].target
          ==> eps[i].name == was[j].name)
  }

  lemma OutcomeKept(config: Config, was: seq<Endpoint>, new_: seq<Endpoint>, eps: seq<Endpoint>, slot: seq<int>)
    requires Permuted(was, eps, slot) && Filled(config, was, new_, eps, slot)
    requires SurvivorsStay(was, new_, slot[..|new_|])
    ensures SlotsKept(config, was, new_, eps)
  {
    SameNames(was, eps, slot);
    forall i, j | 0 <= i < |new_| && 0 <= j < |was| && was[j].enabled && was[j].target == new_[i].target
      ensures eps[i].name == was[j].name
    {
      assert slot[..|new_|][i] == j;
    }
  }
}
