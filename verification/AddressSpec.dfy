/** What the endpoints of a backend have to be for the addresses of its service, whatever slots they are in. */
module AddressSpec {
  import opened Model
  import opened Ordering
  import opened Endpoints
  import opened SlotBook

  /** An address of a service, with what the annotations say about it. */
  datatype Address = Address(ip: string, port: nat, targetRef: string, weight: int, useLabel: string, cookieValue: string)

  ghost predicate SamePlace(a: Address, b: Address)
  {
    a.ip == b.ip && a.port == b.port
  }

  /** No later address has the same IP and port. */
  ghost predicate IsLast(addresses: seq<Address>, k: nat)
    requires k < |addresses|
  {
    forall m :: k < m < |addresses| ==> !SamePlace(addresses[k], addresses[m])
  }

  ghost predicate IsAt(ep: Endpoint, a: Address)
  {
    ep.ip == a.ip && ep.port == a.port
  }

  /** The endpoint is that of the address, with what the annotations say. */
  ghost predicate IsOf(ep: Endpoint, a: Address)
  {
    IsAt(ep, a) && ep.weight == a.weight && ep.useLabel == a.useLabel && ep.cookieValue == a.cookieValue
  }

  ghost predicate HasLast(ep: Endpoint, addresses: seq<Address>)
  {
    exists k :: 0 <= k < |addresses| && IsLast(addresses, k) && IsOf(ep, addresses[k])
  }

  ghost predicate HasEndpoint(eps: seq<Endpoint>, a: Address)
  {
    exists i :: 0 <= i < |eps| && eps[i].enabled && IsAt(eps[i], a)
  }

  /**
   * The enabled endpoints are exactly those of the addresses: each has the settings of the last address of its IP and port,
   * every address has one, and no two have the same IP and port.
   */
  ghost predicate Shows(eps: seq<Endpoint>, addresses: seq<Address>)
  {
    && (forall i :: 0 <= i < |eps| && eps[i].enabled ==> HasLast(eps[i], addresses))
    && (forall k :: 0 <= k < |addresses| ==> HasEndpoint(eps, addresses[k]))
    && (forall i, j :: 0 <= i < j < |eps| && eps[i].enabled && eps[j].enabled ==> eps[i].ip != eps[j].ip || eps[i].port != eps[j].port)
  }

  // ---------------------------------------------------------------- what keeps it

  lemma ShowsRenamed(was: seq<Endpoint>, eps: seq<Endpoint>, addresses: seq<Address>)
    requires Shows(was, addresses) && |was| <= |eps|
    requires forall i :: 0 <= i < |was| ==> eps[i] == was[i].(name := eps[i].name)
    requires forall i :: |was| <= i < |eps| ==> !eps[i].enabled
    ensures Shows(eps, addresses)
  {
    forall i | 0 <= i < |eps| && eps[i].enabled ensures HasLast(eps[i], addresses) {
      assert HasLast(was[i], addresses);
      var k :| 0 <= k < |addresses| && IsLast(addresses, k) && IsOf(was[i], addresses[k]);
      assert IsOf(eps[i], addresses[k]);
    }
    forall k | 0 <= k < |addresses| ensures HasEndpoint(eps, addresses[k]) {
      assert HasEndpoint(was, addresses[k]);
      var i :| 0 <= i < |was| && was[i].enabled && IsAt(was[i], addresses[k]);
      assert eps[i].enabled && IsAt(eps[i], addresses[k]);
    }
  }

  lemma ShowsRearranged(was: seq<Endpoint>, eps: seq<Endpoint>, addresses: seq<Address>)
    requires Shows(was, addresses) && multiset(was) == multiset(eps)
    ensures Shows(eps, addresses)
  {
    hide HasLast, IsAt;
    forall i | 0 <= i < |eps| && eps[i].enabled ensures HasLast(eps[i], addresses) {
      assert eps[i] in multiset(was);
    }
    forall k | 0 <= k < |addresses| ensures HasEndpoint(eps, addresses[k]) {
      assert HasEndpoint(was, addresses[k]);
      var i :| 0 <= i < |was| && was[i].enabled && IsAt(was[i], addresses[k]);
      assert was[i] in multiset(eps);
      var j :| 0 <= j < |eps| && eps[j] == was[i];
    }
    forall i, j | 0 <= i < j < |eps| && eps[i].enabled && eps[j].enabled
      ensures eps[i].ip != eps[j].ip || eps[i].port != eps[j].port
    {
      var k, l := TwoOf(was, eps, i, j);
    }
  }

  // ---------------------------------------------------------------- one address more

  ghost predicate Targeted(eps: seq<Endpoint>)
  {
    forall i :: 0 <= i < |eps| ==> eps[i].enabled && eps[i].target == TargetOf(eps[i].ip, eps[i].port)
  }

  /** The endpoint at position i was acquired for the address and given its settings. */
  lemma ShowsNext(was: seq<Endpoint>, eps: seq<Endpoint>, addresses: seq<Address>, a: Address, i: nat)
    requires Shows(was, addresses) && Targeted(was) && Targeted(eps) && i < |eps| && |was| <= |eps| <= |was| + 1
    requires forall j :: 0 <= j < |was| && j != i ==> eps[j] == was[j]
    requires |eps| == |was| + 1 ==> i == |was|
    requires i < |was| ==> was[i].ip == a.ip && was[i].port == a.port
    requires i == |was| ==> forall j :: 0 <= j < |was| ==> was[j].target != TargetOf(a.ip, a.port)
    requires IsOf(eps[i], a)
    ensures Shows(eps, addresses + [a])
  {
    hide TargetOf, IsLast, HasLast, HasEndpoint;
    var all := addresses + [a];
    forall j | 0 <= j < |eps| && j != i ensures eps[j].ip != a.ip || eps[j].port != a.port {
      assert j < |was|;
    }
    forall j | 0 <= j < |eps| ensures HasLast(eps[j], all) {
      if j == i {
        NewIsLast(eps[i], addresses, a);
      } else {
        LastStays(eps[j], addresses, a);
      }
    }
    forall k | 0 <= k < |all| ensures HasEndpoint(eps, all[k]) {
      if k < |addresses| {
        EndpointStays(was, eps, addresses[k]);
      } else {
        EndpointAt(eps, i, a);
      }
    }
  }

  lemma NewIsLast(ep: Endpoint, addresses: seq<Address>, a: Address)
    requires IsOf(ep, a)
    ensures HasLast(ep, addresses + [a])
  {
    assert IsLast(addresses + [a], |addresses|) && (addresses + [a])[|addresses|] == a;
  }

  lemma EndpointAt(eps: seq<Endpoint>, i: nat, a: Address)
    requires i < |eps| && eps[i].enabled && IsAt(eps[i], a)
    ensures HasEndpoint(eps, a)
  {
  }

  lemma EndpointStays(was: seq<Endpoint>, eps: seq<Endpoint>, a: Address)
    requires HasEndpoint(was, a) && |was| <= |eps|
    requires forall j :: 0 <= j < |was| ==> eps[j].enabled && eps[j].ip == was[j].ip && eps[j].port == was[j].port
    ensures HasEndpoint(eps, a)
  {
    var j :| 0 <= j < |was| && was[j].enabled && IsAt(was[j], a);
    assert IsAt(eps[j], a);
  }

  lemma LastStays(ep: Endpoint, addresses: seq<Address>, a: Address)
    requires HasLast(ep, addresses) && !IsAt(ep, a)
    ensures HasLast(ep, addresses + [a])
  {
    var k :| 0 <= k < |addresses| && IsLast(addresses, k) && IsOf(ep, addresses[k]);
    assert IsLast(addresses + [a], k);
  }

  // ---------------------------------------------------------------- how many

  ghost function Places(addresses: seq<Address>): set<(string, nat)>
  {
    set a | a in addresses :: (a.ip, a.port)
  }

  ghost function PlacesOf(eps: seq<Endpoint>): set<(string, nat)>
  {
    set ep | ep in eps :: (ep.ip, ep.port)
  }

  lemma {:induction false} DistinctPlaces(eps: seq<Endpoint>)
    requires forall i, j :: 0 <= i < j < |eps| ==> eps[i].ip != eps[j].ip || eps[i].port != eps[j].port
    ensures |PlacesOf(eps)| == |eps|
  {
    if eps != [] {
      var n := |eps| - 1;
      DistinctPlaces(eps[..n]);
      assert eps == eps[..n] + [eps[n]];
      assert PlacesOf(eps) == PlacesOf(eps[..n]) + {(eps[n].ip, eps[n].port)};
    }
  }

  /** There are as many endpoints as different addresses. */
  lemma ShowsCount(eps: seq<Endpoint>, addresses: seq<Address>)
    requires Shows(eps, addresses) && AllEnabled(eps)
    ensures |eps| == |Places(addresses)|
  {
    DistinctPlaces(eps);
    forall ep | ep in eps ensures (ep.ip, ep.port) in Places(addresses) {
      assert HasLast(ep, addresses);
    }
    forall a | a in addresses ensures (a.ip, a.port) in PlacesOf(eps) {
      assert HasEndpoint(eps, a);
    }
    assert PlacesOf(eps) == Places(addresses);
  }

  lemma ShowsUnlabelled(eps: seq<Endpoint>, addresses: seq<Address>)
    requires Shows(eps, addresses) && AllEnabled(eps)
    requires forall k :: 0 <= k < |addresses| ==> addresses[k].useLabel == ""
    ensures forall i :: 0 <= i < |eps| ==> eps[i].useLabel == ""
  {
    forall i | 0 <= i < |eps| ensures eps[i].useLabel == "" {
      assert HasLast(eps[i], addresses);
    }
  }

  // ---------------------------------------------------------------- the servers

  ghost predicate IsServerOf(s: Server, a: Address)
  {
    s.state != Maint && s.addr == a.ip && s.port == a.port && s.weight == a.weight
  }

  ghost predicate ServesLast(s: Server, addresses: seq<Address>)
  {
    exists k :: 0 <= k < |addresses| && IsLast(addresses, k) && IsServerOf(s, addresses[k])
  }

  ghost predicate IsServed(table: Table, names: seq<string>, a: Address)
  {
    exists i :: 0 <= i < |names| && names[i] in table && table[names[i]].state != Maint
                && table[names[i]].addr == a.ip && table[names[i]].port == a.port
  }

  /** Every server that is not in maintenance is that of an address, each address has one, and no two have the same place. */
  ghost predicate TableShows(table: Table, names: seq<string>, addresses: seq<Address>)
  {
    && (forall i :: 0 <= i < |names| ==> names[i] in table)
    && (forall i :: 0 <= i < |names| && table[names[i]].state != Maint ==> ServesLast(table[names[i]], addresses))
    && (forall k :: 0 <= k < |addresses| ==> IsServed(table, names, addresses[k]))
    && (forall i, j :: 0 <= i < j < |names| && table[names[i]].state != Maint && table[names[j]].state != Maint ==>
                         table[names[i]].addr != table[names[j]].addr || table[names[i]].port != table[names[j]].port)
  }

  lemma AgreesShows(table: Table, eps: seq<Endpoint>, addresses: seq<Address>)
    requires Agrees(table, eps) && Shows(eps, addresses)
    ensures TableShows(table, NamesOf(eps), addresses)
  {
    var names := NamesOf(eps);
    forall i | 0 <= i < |names|
      ensures names[i] in table && (table[names[i]].state != Maint <==> eps[i].enabled)
      ensures eps[i].enabled ==> table[names[i]].addr == eps[i].ip && table[names[i]].port == eps[i].port && table[names[i]].weight == eps[i].weight
    {
      assert Serves(table[eps[i].name], eps[i]);
    }
    forall i | 0 <= i < |names| && table[names[i]].state != Maint ensures ServesLast(table[names[i]], addresses) {
      assert HasLast(eps[i], addresses);
      var k :| 0 <= k < |addresses| && IsLast(addresses, k) && IsOf(eps[i], addresses[k]);
      assert IsServerOf(table[names[i]], addresses[k]);
    }
    forall k | 0 <= k < |addresses| ensures IsServed(table, names, addresses[k]) {
      assert HasEndpoint(eps, addresses[k]);
      var i :| 0 <= i < |eps| && eps[i].enabled && IsAt(eps[i], addresses[k]);
      assert names[i] in table && table[names[i]].state != Maint;
    }
  }
}
