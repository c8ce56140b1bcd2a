/**
 The ingress converter: full and partial synchronization of ingress resources into
 hosts and backends, with the dependency tracker deciding what a partial one rebuilds.
 */
module IngressSync {
  import opened Model
  import opened Ordering
  import opened LinkTracker
  import opened SyncModel

  const INGRESS := "Ingress"
  const SERVICE := "Service"
  const ENDPOINTS := "Endpoints"
  const HOSTNAME := "HAHostname"
  const TCP_SERVICE := "HATCPService"
  const BACKEND := "HABackend"

  /** A batch of notifications: the changed ingress objects and the names of everything that changed. */
  datatype Changed = Changed(add: seq<Ingress>, upd: seq<Ingress>, del: seq<Ingress>, links: map<string, seq<string>>)

  /** One call of the converter, with the state of the cluster it finds. */
  datatype Batch =
    | FullSync(cache: map<string, Ingress>, services: Services)
    | PartialSync(changed: Changed, cache: map<string, Ingress>, services: Services)

  type BackMap = map<string, set<PathLink>>

  // ---------------------------------------------------------------- hosts and backends

  ghost predicate HostServes(hosts: HostMap, id: string, link: PathLink)
  {
    link.hostname in hosts &&
    exists i :: 0 <= i < |hosts[link.hostname]| && hosts[link.hostname][i].link == link
                && hosts[link.hostname][i].target == ToBackend(id)
  }

  ghost predicate BackLists(backs: BackMap, id: string, link: PathLink)
  {
    id in backs && link in backs[id]
  }

  /** The backends are those the hosts lead to, each with exactly the paths that lead to it. */
  ghost predicate BacksMatch(hosts: HostMap, backs: BackMap)
  {
    && (forall id, link :: BackLists(backs, id, link) <==> HostServes(hosts, id, link))
    && (forall id :: id in backs ==> backs[id] != {})
    && (forall h, i :: h in hosts && 0 <= i < |hosts[h]| ==> hosts[h][i].link.hostname == h)
  }

  lemma BacksUnique(hosts: HostMap, backs: BackMap, backs': BackMap)
    requires BacksMatch(hosts, backs) && BacksMatch(hosts, backs')
    ensures backs == backs'
  {
    forall id ensures (id in backs <==> id in backs') && (id in backs ==> backs[id] == backs'[id]) {
      if id in backs {
        var link :| link in backs[id];
        assert BackLists(backs, id, link) && BackLists(backs', id, link);
      }
      if id in backs' {
        var link :| link in backs'[id];
        assert BackLists(backs', id, link) && BackLists(backs, id, link);
      }
      if id in backs && id in backs' {
        forall link ensures link in backs[id] <==> link in backs'[id] {
          assert BackLists(backs, id, link) <==> BackLists(backs', id, link);
        }
      }
    }
  }

  lemma AddLinkMembers(paths: seq<HostPath>, link: PathLink, target: Target, hp: HostPath)
    ensures hp in AddLink(paths, link, target) <==> hp in paths || hp == HostPath(link, target, |paths|)
  {
    var all := paths + [HostPath(link, target, |paths|)];
    assert hp in multiset(Sort(all, HostPathLe)) <==> hp in multiset(all);
  }

  function AddBack(backs: BackMap, id: string, link: PathLink): BackMap
  {
    backs[id := (if id in backs then backs[id] else {}) + {link}]
  }

  /** Adding a path to a host and to its backend keeps them in agreement. */
  lemma AddLinkKeepsMatch(hosts: HostMap, backs: BackMap, h: string, link: PathLink, id: string)
    requires BacksMatch(hosts, backs) && h in hosts && link.hostname == h
    ensures BacksMatch(hosts[h := AddLink(hosts[h], link, ToBackend(id))], AddBack(backs, id, link))
  {
    var paths := hosts[h];
    var hosts' := hosts[h := AddLink(paths, link, ToBackend(id))];
    var backs' := AddBack(backs, id, link);
    forall b, l ensures BackLists(backs', b, l) <==> HostServes(hosts', b, l) {
      assert BackLists(backs, b, l) <==> HostServes(hosts, b, l);
      ServesAfterAdd(hosts, h, link, ToBackend(id), b, l);
    }
    forall g, i | g in hosts' && 0 <= i < |hosts'[g]| ensures hosts'[g][i].link.hostname == g {
      if g == h {
        AddLinkMembers(paths, link, ToBackend(id), hosts'[g][i]);
      }
    }
  }

  lemma AddRedirectKeepsMatch(hosts: HostMap, backs: BackMap, h: string, link: PathLink, url: string)
    requires BacksMatch(hosts, backs) && h in hosts && link.hostname == h
    ensures BacksMatch(hosts[h := AddLink(hosts[h], link, RedirTo(url))], backs)
  {
    var hosts' := hosts[h := AddLink(hosts[h], link, RedirTo(url))];
    forall b, l ensures BackLists(backs, b, l) <==> HostServes(hosts', b, l) {
      assert BackLists(backs, b, l) <==> HostServes(hosts, b, l);
      ServesAfterAdd(hosts, h, link, RedirTo(url), b, l);
    }
    forall g, i | g in hosts' && 0 <= i < |hosts'[g]| ensures hosts'[g][i].link.hostname == g {
      if g == h {
        AddLinkMembers(hosts[h], link, RedirTo(url), hosts'[g][i]);
      }
    }
  }

  lemma ServesAfterAdd(hosts: HostMap, h: string, link: PathLink, target: Target, b: string, l: PathLink)
    requires h in hosts && link.hostname == h
    ensures HostServes(hosts[h := AddLink(hosts[h], link, target)], b, l) <==>
            HostServes(hosts, b, l) || (l == link && target == ToBackend(b))
  {
    var paths := hosts[h];
    var after := AddLink(paths, link, target);
    var hosts' := hosts[h := after];
    if l.hostname == h {
      if HostServes(hosts', b, l) {
        var i :| 0 <= i < |after| && after[i].link == l && after[i].target == ToBackend(b);
        AddLinkMembers(paths, link, target, after[i]);
      }
      if HostServes(hosts, b, l) {
        var i :| 0 <= i < |paths| && paths[i].link == l && paths[i].target == ToBackend(b);
        AddLinkMembers(paths, link, target, paths[i]);
      }
      AddLinkMembers(paths, link, target, HostPath(link, target, |paths|));
    }
  }

  lemma EmptyHostKeeps(t: Links, hosts: HostMap, backs: BackMap, h: string)
    requires BacksMatch(hosts, backs) && BackendsLinked(t, hosts) && h !in hosts
    ensures BacksMatch(hosts[h := []], backs) && BackendsLinked(t, hosts[h := []])
  {
    var hosts': HostMap := hosts[h := []];
    forall b, l ensures BackLists(backs, b, l) <==> HostServes(hosts', b, l) {
      assert BackLists(backs, b, l) <==> HostServes(hosts, b, l);
      assert l.hostname != h ==> (HostServes(hosts', b, l) <==> HostServes(hosts, b, l));
    }
  }

  /** Dropping hosts and backends that go together keeps the rest in agreement. */
  lemma RemovalKeepsMatch(hosts: HostMap, backs: BackMap, dirtyHosts: set<string>, dirtyBacks: set<string>)
    requires BacksMatch(hosts, backs)
    requires forall h, i :: h in hosts && 0 <= i < |hosts[h]| && hosts[h][i].target.ToBackend? ==>
               (h in dirtyHosts <==> hosts[h][i].target.id in dirtyBacks)
    ensures BacksMatch(hosts - dirtyHosts, backs - dirtyBacks)
  {
    forall b, l ensures BackLists(backs - dirtyBacks, b, l) <==> HostServes(hosts - dirtyHosts, b, l) {
      assert BackLists(backs, b, l) <==> HostServes(hosts, b, l);
    }
  }

  // ---------------------------------------------------------------- what the tracker has to know

  ghost predicate Grew(t: Links, t': Links)
  {
    forall r :: At(t, r) <= At(t', r)
  }

  ghost predicate Linked(t: Links, a: Ref, b: Ref)
  {
    b in At(t, a)
  }

  /** Every ingress is linked to every host it has a rule on. */
  ghost predicate IngressesLinked(t: Links, cache: map<string, Ingress>)
  {
    forall n, h :: n in cache && IngressOn(cache[n], h) ==> Linked(t, Ref(INGRESS, n), Ref(HOSTNAME, h))
  }

  /** Every service a host was resolved with is linked to the host. */
  ghost predicate ServicesLinked(t: Links, cache: map<string, Ingress>, services: Services)
  {
    forall h, r :: ':' !in h && r in FullTried(cache, services, h) ==>
                     Linked(t, Ref(SERVICE, r.fullName), Ref(HOSTNAME, h))
  }

  ghost predicate SharesIngress(t: Links, h: string, id: string)
  {
    exists n :: Linked(t, Ref(INGRESS, n), Ref(HOSTNAME, h)) && Linked(t, Ref(INGRESS, n), Ref(BACKEND, id))
  }

  /** A host and each backend it leads to are linked to a common ingress. */
  ghost predicate BackendsLinked(t: Links, hosts: HostMap)
  {
    forall h, i :: h in hosts && 0 <= i < |hosts[h]| && hosts[h][i].target.ToBackend? ==>
                     SharesIngress(t, h, hosts[h][i].target.id)
  }

  lemma SharedGrows(t: Links, t': Links, h: string, id: string)
    requires Grew(t, t') && SharesIngress(t, h, id)
    ensures SharesIngress(t', h, id)
  {
    var n :| Linked(t, Ref(INGRESS, n), Ref(HOSTNAME, h)) && Linked(t, Ref(INGRESS, n), Ref(BACKEND, id));
    assert Linked(t', Ref(INGRESS, n), Ref(HOSTNAME, h)) && Linked(t', Ref(INGRESS, n), Ref(BACKEND, id));
  }

  lemma BackendsLinkedGrows(t: Links, t': Links, hosts: HostMap)
    requires Grew(t, t') && BackendsLinked(t, hosts)
    ensures BackendsLinked(t', hosts)
  {
    forall h, i | h in hosts && 0 <= i < |hosts[h]| && hosts[h][i].target.ToBackend?
      ensures SharesIngress(t', h, hosts[h][i].target.id)
    {
      SharedGrows(t, t', h, hosts[h][i].target.id);
    }
  }

  lemma BackendsLinkedAdds(t: Links, hosts: HostMap, h: string, link: PathLink, target: Target)
    requires BackendsLinked(t, hosts) && h in hosts
    requires target.ToBackend? ==> SharesIngress(t, h, target.id)
    ensures BackendsLinked(t, hosts[h := AddLink(hosts[h], link, target)])
  {
    var hosts': HostMap := hosts[h := AddLink(hosts[h], link, target)];
    forall g, i | g in hosts' && 0 <= i < |hosts'[g]| && hosts'[g][i].target.ToBackend?
      ensures SharesIngress(t, g, hosts'[g][i].target.id)
    {
      if g == h {
        AddLinkMembers(hosts[h], link, target, hosts'[g][i]);
      }
    }
  }

  // ---------------------------------------------------------------- the dirty closure

  /** Linked resources are both in the result of a query or both out of it. */
  lemma OutTogether(t: Links, inputs: set<Ref>, out: set<Ref>, a: Ref, b: Ref)
    requires Symmetric(t) && Linked(t, a, b)
    requires forall r :: r in out <==> ReachableFromAny(t, inputs, r)
    ensures a in out <==> b in out
    ensures a in inputs ==> a in out
  {
    ReachableIsClosed(t, inputs, out);
    assert a in At(t, b);
    if a in inputs {
      ReachableIsComponents(t, inputs, a);
    }
  }

  /** The names of one resource type in a set of references. */
  ghost function NamesIn(out: set<Ref>, ctx: string): set<string>
  {
    set r | r in out && r.ctx == ctx :: r.name
  }

  lemma InNames(out: set<Ref>, ctx: string, name: string)
    ensures name in NamesIn(out, ctx) <==> Ref(ctx, name) in out
  {
    if name in NamesIn(out, ctx) {
      var r :| r in out && r.ctx == ctx && r.name == name;
      assert r == Ref(ctx, name);
    }
    if Ref(ctx, name) in out {
      assert Ref(ctx, name).name in NamesIn(out, ctx);
    }
  }

  /**
   The notifications account for the change from one state of the cluster to the next, but
   an object notified as added may be gone or replaced since.
   */
  ghost predicate Accounted(changed: Changed, cache: map<string, Ingress>, cache': map<string, Ingress>,
                            s: Services, s': Services)
  {
    && ValidCache(cache')
    // what changed is named by the batch
    && (forall n :: (n in cache || n in cache') && !Unchanged(cache, cache', n) ==> Ref(INGRESS, n) in RefsOf(changed.links))
    && (forall r :: !AgreeAt(s, s', r) ==> Ref(SERVICE, r.fullName) in RefsOf(changed.links))
    && (forall x :: x in changed.add ==> Ref(INGRESS, FullName(x)) in RefsOf(changed.links))
    // what is new or different comes with its current version
    && (forall n :: n in cache' && !Unchanged(cache, cache', n) ==> cache'[n] in changed.add + changed.upd)
    // what is deleted is gone, or back as an addition
    && (forall x :: x in changed.del && FullName(x) in cache' ==> cache'[FullName(x)] in changed.add)
    // host names are host names
    && (s == s' || forall n, h :: n in cache && IngressOn(cache[n], h) ==> ':' !in h)
  }

  /** The last object added under each name is the current one. */
  ghost predicate AddsCurrent(changed: Changed, cache: map<string, Ingress>)
  {
    forall n :: n in AddMap(changed.add) ==> n in cache && cache[n] == AddMap(changed.add)[n]
  }

  /** One notification per ingress and per service in a batch gives this. */
  ghost predicate Consistent(changed: Changed, cache: map<string, Ingress>, cache': map<string, Ingress>,
                             s: Services, s': Services)
  {
    Accounted(changed, cache, cache', s, s') && AddsCurrent(changed, cache')
  }

  ghost predicate ConsistentRun(cache: map<string, Ingress>, s: Services, batches: seq<Batch>)
    decreases |batches|
  {
    batches == [] ||
    (&& (match batches[0]
         case FullSync(c, _) => ValidCache(c)
         case PartialSync(changed, c, s') => Consistent(changed, cache, c, s, s'))
     && ConsistentRun(batches[0].cache, batches[0].services, batches[1..]))
  }

  function LastState(cache: map<string, Ingress>, s: Services, batches: seq<Batch>): (map<string, Ingress>, Services)
  {
    if batches == [] then (cache, s)
    else (batches[|batches| - 1].cache, batches[|batches| - 1].services)
  }

  /** One notification per ingress: disjoint additions, updates and deletions applied to the old state. */
  ghost predicate OneEventEach(changed: Changed, cache: map<string, Ingress>, cache': map<string, Ingress>)
  {
    && ValidCache(cache)
    && (forall x :: x in changed.add ==> FullName(x) !in cache && x !in changed.upd && x !in changed.del)
    && (forall x :: x in changed.add + changed.upd + changed.del ==> Ref(INGRESS, FullName(x)) in RefsOf(changed.links))
    && (forall x, y :: x in changed.add + changed.upd && y in changed.add + changed.upd + changed.del && FullName(x) == FullName(y) ==> x == y)
    && (forall x :: x in changed.upd ==> x !in changed.del)
    && (forall n :: n in cache' ==> FullName(cache'[n]) == n)
    && (forall x :: x in changed.add + changed.upd ==> FullName(x) in cache' && cache'[FullName(x)] == x)
    && (forall x :: x in changed.del ==> FullName(x) !in cache')
    && (forall n :: n in cache + cache' && (forall x :: x in changed.add + changed.upd + changed.del ==> FullName(x) != n) ==>
          Unchanged(cache, cache', n))
  }

  lemma OneEventEachIsConsistent(changed: Changed, cache: map<string, Ingress>, cache': map<string, Ingress>, s: Services)
    requires OneEventEach(changed, cache, cache')
    ensures Consistent(changed, cache, cache', s, s)
  {
    forall n | n in cache + cache' && !Unchanged(cache, cache', n)
      ensures Ref(INGRESS, n) in RefsOf(changed.links)
      ensures n in cache' ==> cache'[n] in changed.add + changed.upd
    {
      var x :| x in changed.add + changed.upd + changed.del && FullName(x) == n;
    }
    AddMapMembers(changed.add);
  }

  /** The ingress is linked with every existing backend that these paths lead to. */
  ghost predicate BacksTracked(t: Links, backs: BackMap, ing: Ingress, ps: seq<IngressPath>, services: Services)
  {
    forall i :: 0 <= i < |ps| && ps[i].service.Some? && ps[i].service.value in services && services[ps[i].service.value] in backs ==>
                  Linked(t, Ref(INGRESS, FullName(ing)), Ref(BACKEND, services[ps[i].service.value]))
  }

  ghost predicate AllBacksTracked(t: Links, backs: BackMap, ing: Ingress, services: Services)
  {
    forall j :: 0 <= j < |ing.rules| && ing.rules[j].http.Some? ==> BacksTracked(t, backs, ing, ing.rules[j].http.value, services)
  }

  lemma BacksTrackedGrow(t: Links, t': Links, backs: BackMap, ings: seq<Ingress>, ing: Ingress, services: Services)
    requires Grew(t, t') && AllBacksTracked(t', backs, ing, services)
    requires forall x :: x in ings ==> AllBacksTracked(t, backs, x, services)
    ensures forall x :: x in ings + [ing] ==> AllBacksTracked(t', backs, x, services)
  {
    hide FullName;
    forall x | x in ings + [ing] ensures AllBacksTracked(t', backs, x, services) {
      if x != ing {
        assert x in ings;
      }
    }
  }

  ghost predicate Tracked(t: Links, ings: seq<Ingress>)
  {
    forall x, h :: x in ings && IngressOn(x, h) ==> Linked(t, Ref(INGRESS, FullName(x)), Ref(HOSTNAME, h))
  }

  lemma IngressesLinkedAfterTracking(t: Links, t': Links, changed: Changed, cache: map<string, Ingress>, cache': map<string, Ingress>,
                                     s: Services, s': Services)
    requires IngressesLinked(t, cache) && Grew(t, t') && Tracked(t', changed.add + changed.upd)
    requires Consistent(changed, cache, cache', s, s')
    ensures IngressesLinked(t', cache) && IngressesLinked(t', cache')
  {
    forall n, h | n in cache' && IngressOn(cache'[n], h) ensures Linked(t', Ref(INGRESS, n), Ref(HOSTNAME, h)) {
      if Unchanged(cache, cache', n) {
        assert Linked(t, Ref(INGRESS, n), Ref(HOSTNAME, h));
      }
    }
    forall n, h | n in cache && IngressOn(cache[n], h) ensures Linked(t', Ref(INGRESS, n), Ref(HOSTNAME, h)) {
      assert Linked(t, Ref(INGRESS, n), Ref(HOSTNAME, h));
    }
  }

  lemma LinkedIngressesDirty(t: Links, inputs: set<Ref>, out: set<Ref>, cache: map<string, Ingress>, other: map<string, Ingress>)
    requires Symmetric(t) && IngressesLinked(t, cache)
    requires forall r :: r in out <==> ReachableFromAny(t, inputs, r)
    requires forall n :: n in cache && !Unchanged(cache, other, n) ==> Ref(INGRESS, n) in inputs
    ensures DirtyTogether(cache, NamesIn(out, INGRESS), NamesIn(out, HOSTNAME))
    ensures ChangedAreDirty(cache, other, NamesIn(out, INGRESS))
  {
    forall n, h | n in cache && IngressOn(cache[n], h)
      ensures n in NamesIn(out, INGRESS) <==> h in NamesIn(out, HOSTNAME)
    {
      OutTogether(t, inputs, out, Ref(INGRESS, n), Ref(HOSTNAME, h));
      InNames(out, INGRESS, n);
      InNames(out, HOSTNAME, h);
    }
    forall n, h | n in cache && IngressOn(cache[n], h) && !Unchanged(cache, other, n) ensures n in NamesIn(out, INGRESS) {
      OutTogether(t, inputs, out, Ref(INGRESS, n), Ref(HOSTNAME, h));
      InNames(out, INGRESS, n);
    }
  }

  lemma TriedNeedsIngress(cache: map<string, Ingress>, s: Services, h: string)
    requires ValidCache(cache)
    ensures FullTried(cache, s, h) != {} ==> exists n :: n in cache && IngressOn(cache[n], h)
  {
    var list := ListOf(cache.Values);
    ValidCacheListing(cache);
    RunListOnHost(None, h, list, s);
    HasMember(OnHost(list, h));
    if OnHost(list, h) != [] {
      var x :| x in OnHost(list, h);
      OnHostMembers(list, h, x);
      var n :| n in cache && cache[n] == x;
    }
  }

  lemma ServicesClean(t: Links, t': Links, changed: Changed, out: set<Ref>, cache: map<string, Ingress>, cache': map<string, Ingress>,
                      s: Services, s': Services)
    requires ValidCache(cache) && Symmetric(t') && ServicesLinked(t, cache, s) && Grew(t, t')
    requires forall r :: r in out <==> ReachableFromAny(t', RefsOf(changed.links), r)
    requires Consistent(changed, cache, cache', s, s')
    ensures ServicesCleanOn(cache, s, s', NamesIn(out, HOSTNAME))
  {
    forall h, r | h !in NamesIn(out, HOSTNAME) && r in FullTried(cache, s, h) ensures AgreeAt(s, s', r) {
      TriedNeedsIngress(cache, s, h);
      if s != s' {
        assert Linked(t, Ref(SERVICE, r.fullName), Ref(HOSTNAME, h));
        OutTogether(t', RefsOf(changed.links), out, Ref(SERVICE, r.fullName), Ref(HOSTNAME, h));
        InNames(out, HOSTNAME, h);
      }
    }
  }

  /** The query result is a dirty closure in the sense of the partial sync theorem. */
  lemma QueryIsDirtyClosure(t: Links, t': Links, changed: Changed, out: set<Ref>,
                            cache: map<string, Ingress>, cache': map<string, Ingress>, s: Services, s': Services)
    requires ValidCache(cache) && Symmetric(t')
    requires IngressesLinked(t, cache) && ServicesLinked(t, cache, s)
    requires Grew(t, t') && Tracked(t', changed.add + changed.upd)
    requires Consistent(changed, cache, cache', s, s')
    requires forall r :: r in out <==> ReachableFromAny(t', RefsOf(changed.links), r)
    ensures DirtyClosure(cache, cache', s, s', NamesIn(out, INGRESS), NamesIn(out, HOSTNAME))
  {
    IngressesLinkedAfterTracking(t, t', changed, cache, cache', s, s');
    LinkedIngressesDirty(t', RefsOf(changed.links), out, cache, cache');
    LinkedIngressesDirty(t', RefsOf(changed.links), out, cache', cache);
    ServicesClean(t, t', changed, out, cache, cache', s, s');
  }

  // ---------------------------------------------------------------- the ingress list of a partial sync

  function AddMap(add: seq<Ingress>): map<string, Ingress>
  {
    if add == [] then map[]
    else AddMap(add[..|add| - 1])[FullName(add[|add| - 1]) := add[|add| - 1]]
  }

  function DelNames(del: seq<Ingress>): set<string>
  {
    set x | x in del :: FullName(x)
  }

  /** The current version of the dirty ingress resources that were not deleted. */
  function KeptMap(dirtyIngs: set<string>, del: seq<Ingress>, cache: map<string, Ingress>): map<string, Ingress>
  {
    map n | n in cache && n in dirtyIngs && n !in DelNames(del) :: cache[n]
  }

  /** Dirty and added ingress resources merged by name: additions as notified, the others from the cache. */
  function MergedMap(dirtyIngs: set<string>, changed: Changed, cache: map<string, Ingress>): map<string, Ingress>
  {
    KeptMap(dirtyIngs, changed.del, cache) + AddMap(changed.add)
  }

  lemma {:induction false} AddMapMembers(add: seq<Ingress>)
    ensures ValidCache(AddMap(add))
    ensures forall n :: n in AddMap(add) ==> AddMap(add)[n] in add
    ensures forall x :: x in add ==> FullName(x) in AddMap(add)
  {
    if add != [] {
      var k := |add| - 1;
      AddMapMembers(add[..k]);
      assert add == add[..k] + [add[k]];
    }
  }

  lemma MergedIsPartialListing(dirtyIngs: set<string>, changed: Changed, cache: map<string, Ingress>, cache': map<string, Ingress>,
                               s: Services, s': Services, list: seq<Ingress>)
    requires Consistent(changed, cache, cache', s, s')
    requires IsListing(list, MergedMap(dirtyIngs, changed, cache').Values)
    requires ChangedAreDirty(cache', cache, dirtyIngs)
    requires forall x, h :: x in changed.add && IngressOn(x, h) ==> FullName(x) in dirtyIngs
    ensures PartialListing(list, cache', dirtyIngs)
  {
    var merged := MergedMap(dirtyIngs, changed, cache');
    AddMapMembers(changed.add);
    forall x | x in list
      ensures FullName(x) in cache' && cache'[FullName(x)] == x && (x in changed.add || FullName(x) in dirtyIngs)
    {
      var n :| n in merged && merged[n] == x;
    }
    forall n | n in cache' && n in dirtyIngs ensures cache'[n] in list {
      if n in AddMap(changed.add) {
        assert AddMap(changed.add)[n] == cache'[n];
      }
      assert n in merged && merged[n] == cache'[n];
      assert merged[n] in merged.Values;
    }
  }

  lemma MergedIsValid(dirtyIngs: set<string>, changed: Changed, cache: map<string, Ingress>)
    requires ValidCache(cache)
    ensures ValidCache(MergedMap(dirtyIngs, changed, cache))
  {
    AddMapMembers(changed.add);
  }

  // ---------------------------------------------------------------- objects added and gone

  /** The cluster that a partial sync builds: objects added in the batch are taken as notified. */
  function Effective(changed: Changed, cache: map<string, Ingress>): map<string, Ingress>
  {
    cache + AddMap(changed.add)
  }

  lemma AccountedEffective(changed: Changed, cache: map<string, Ingress>, cache': map<string, Ingress>, s: Services, s': Services)
    requires Accounted(changed, cache, cache', s, s')
    ensures Consistent(changed, cache, Effective(changed, cache'), s, s')
    ensures AddsCurrent(changed, cache') ==> Effective(changed, cache') == cache'
  {
    hide RefsOf, FullName, Unchanged, AgreeAt, IngressOn, AddsCurrent;
    var e := Effective(changed, cache');
    EffectiveCurrent(changed, cache');
    forall n | (n in cache || n in e) && !Unchanged(cache, e, n)
      ensures Ref(INGRESS, n) in RefsOf(changed.links)
      ensures n in e ==> e[n] in changed.add + changed.upd
    {
      EffectiveChange(changed, cache, cache', s, s', n);
    }
    forall x | x in changed.del && FullName(x) in e ensures e[FullName(x)] in changed.add {
      EffectiveDeleted(changed, cache, cache', s, s', x);
    }
  }

  lemma EffectiveCurrent(changed: Changed, cache: map<string, Ingress>)
    requires ValidCache(cache)
    ensures ValidCache(Effective(changed, cache)) && AddsCurrent(changed, Effective(changed, cache))
    ensures AddsCurrent(changed, cache) ==> Effective(changed, cache) == cache
  {
    AddMapMembers(changed.add);
  }

  lemma EffectiveChange(changed: Changed, cache: map<string, Ingress>, cache': map<string, Ingress>, s: Services, s': Services, n: string)
    requires Accounted(changed, cache, cache', s, s')
    requires (n in cache || n in Effective(changed, cache')) && !Unchanged(cache, Effective(changed, cache'), n)
    ensures Ref(INGRESS, n) in RefsOf(changed.links)
    ensures n in Effective(changed, cache') ==> Effective(changed, cache')[n] in changed.add + changed.upd
  {
    hide RefsOf;
    AddMapMembers(changed.add);
    if n !in AddMap(changed.add) {
      assert !Unchanged(cache, cache', n);
    }
  }

  lemma EffectiveDeleted(changed: Changed, cache: map<string, Ingress>, cache': map<string, Ingress>, s: Services, s': Services, x: Ingress)
    requires Accounted(changed, cache, cache', s, s') && x in changed.del && FullName(x) in Effective(changed, cache')
    ensures Effective(changed, cache')[FullName(x)] in changed.add
  {
    hide RefsOf;
    AddMapMembers(changed.add);
  }

  lemma MergedEffective(dirtyIngs: set<string>, changed: Changed, cache: map<string, Ingress>)
    ensures MergedMap(dirtyIngs, changed, cache) == MergedMap(dirtyIngs, changed, Effective(changed, cache))
  {
  }

  /**
   Every host of an object notified as added is a host of the cluster, and no host of the cluster is lost
   because an object notified as added took the place of the current one.
   */
  ghost predicate NoStrayHosts(changed: Changed, cache: map<string, Ingress>)
  {
    && (forall n, h :: n in AddMap(changed.add) && IngressOn(AddMap(changed.add)[n], h) ==> HasHost(cache, h))
    && (forall n, h :: n in cache && IngressOn(cache[n], h) ==> HasHost(Effective(changed, cache), h))
  }

  /** The hosts served after a batch are those of a full sync if and only if there are no stray hosts. */
  lemma ServedIffNoStray(changed: Changed, cache: map<string, Ingress>, s: Services)
    requires ValidCache(cache)
    ensures FullHosts(Effective(changed, cache), s).Keys == FullHosts(cache, s).Keys <==> NoStrayHosts(changed, cache)
  {
    hide FullHosts, HasHost, NoStrayHosts;
    var e := Effective(changed, cache);
    AddMapMembers(changed.add);
    forall h ensures (h in FullHosts(e, s) <==> HasHost(e, h)) && (h in FullHosts(cache, s) <==> HasHost(cache, h)) {
      FullServes(e, s, h);
      FullServes(cache, s, h);
    }
    NoStrayMeans(changed, cache);
    assert FullHosts(e, s).Keys == FullHosts(cache, s).Keys <==> forall h :: h in FullHosts(e, s) <==> h in FullHosts(cache, s);
  }

  lemma NoStrayMeans(changed: Changed, cache: map<string, Ingress>)
    ensures NoStrayHosts(changed, cache) <==> forall h :: HasHost(Effective(changed, cache), h) <==> HasHost(cache, h)
  {
    var e := Effective(changed, cache);
    forall n | n in AddMap(changed.add) ensures n in e && e[n] == AddMap(changed.add)[n] {
    }
    forall n | n in e ensures if n in AddMap(changed.add) then e[n] == AddMap(changed.add)[n] else n in cache && e[n] == cache[n] {
    }
  }

  /** If every object that is not current is gone, only the hosts of these can be stray. */
  lemma StrayWhenGone(changed: Changed, cache: map<string, Ingress>)
    requires forall n :: n in AddMap(changed.add) && n in cache ==> cache[n] == AddMap(changed.add)[n]
    ensures NoStrayHosts(changed, cache) <==>
              forall n, h :: n in AddMap(changed.add) && n !in cache && IngressOn(AddMap(changed.add)[n], h) ==> HasHost(cache, h)
  {
  }

  /** The batch of an ingress created and deleted before it is processed. */
  function AddedThenDeleted(x: Ingress): Changed
  {
    Changed([x], [], [x], map[INGRESS := [FullName(x)]])
  }

  /** From an empty cluster to an empty cluster, with an ingress that came and went between. */
  lemma AddedThenDeletedIsAccounted(x: Ingress, s: Services)
    ensures Accounted(AddedThenDeleted(x), map[], map[], s, s)
    ensures AddMap([x]) == map[FullName(x) := x] && Effective(AddedThenDeleted(x), map[]) == map[FullName(x) := x]
    ensures FullHosts(map[], s) == map[]
  {
    assert [x][..0] == [];
    var links := AddedThenDeleted(x).links;
    assert Ref(INGRESS, FullName(x)) in RefsOf(links) by {
      assert FullName(x) in links[INGRESS];
    }
    var empty: map<string, Ingress> := map[];
    forall h ensures h !in FullHosts(empty, s) {
      FullServes(empty, s, h);
    }
  }

  // ---------------------------------------------------------------- what a removing query leaves

  ghost predicate Removed(t: Links, t': Links, out: set<Ref>)
  {
    forall r :: At(t', r) == if r in out then {} else At(t, r)
  }

  lemma LinkSurvives(t: Links, t': Links, inputs: set<Ref>, out: set<Ref>, a: Ref, b: Ref)
    requires Symmetric(t) && Linked(t, a, b) && Removed(t, t', out)
    requires forall r :: r in out <==> ReachableFromAny(t, inputs, r)
    requires a !in out || b !in out
    ensures Linked(t', a, b) && a !in out && b !in out
  {
    OutTogether(t, inputs, out, a, b);
  }

  lemma RemovalKeepsBackends(t: Links, t': Links, inputs: set<Ref>, out: set<Ref>, hosts: HostMap, backs: BackMap)
    requires Symmetric(t) && Removed(t, t', out)
    requires forall r :: r in out <==> ReachableFromAny(t, inputs, r)
    requires BackendsLinked(t, hosts) && BacksMatch(hosts, backs)
    ensures BackendsLinked(t', hosts - NamesIn(out, HOSTNAME))
    ensures BacksMatch(hosts - NamesIn(out, HOSTNAME), backs - NamesIn(out, BACKEND))
  {
    forall h, i | h in hosts && 0 <= i < |hosts[h]| && hosts[h][i].target.ToBackend?
      ensures h in NamesIn(out, HOSTNAME) <==> hosts[h][i].target.id in NamesIn(out, BACKEND)
      ensures h !in NamesIn(out, HOSTNAME) ==> SharesIngress(t', h, hosts[h][i].target.id)
    {
      var id := hosts[h][i].target.id;
      var n :| Linked(t, Ref(INGRESS, n), Ref(HOSTNAME, h)) && Linked(t, Ref(INGRESS, n), Ref(BACKEND, id));
      OutTogether(t, inputs, out, Ref(INGRESS, n), Ref(HOSTNAME, h));
      OutTogether(t, inputs, out, Ref(INGRESS, n), Ref(BACKEND, id));
      InNames(out, HOSTNAME, h);
      InNames(out, BACKEND, id);
      if h !in NamesIn(out, HOSTNAME) {
        LinkSurvives(t, t', inputs, out, Ref(INGRESS, n), Ref(HOSTNAME, h));
        LinkSurvives(t, t', inputs, out, Ref(INGRESS, n), Ref(BACKEND, id));
      }
    }
    RemovalKeepsMatch(hosts, backs, NamesIn(out, HOSTNAME), NamesIn(out, BACKEND));
  }

  /** After the rebuild every ingress is linked again, or was never unlinked. */
  lemma IngressesLinkedAfterRebuild(t: Links, t': Links, t'': Links, inputs: set<Ref>, out: set<Ref>,
                                    cache: map<string, Ingress>, list: seq<Ingress>)
    requires Symmetric(t) && Removed(t, t', out) && Grew(t', t'')
    requires forall r :: r in out <==> ReachableFromAny(t, inputs, r)
    requires ValidCache(cache) && IngressesLinked(t, cache)
    requires PartialListing(list, cache, NamesIn(out, INGRESS)) && Tracked(t'', list)
    ensures IngressesLinked(t'', cache)
  {
    forall n, h | n in cache && IngressOn(cache[n], h) ensures Linked(t'', Ref(INGRESS, n), Ref(HOSTNAME, h)) {
      if cache[n] !in list {
        InNames(out, INGRESS, n);
        LinkSurvives(t, t', inputs, out, Ref(INGRESS, n), Ref(HOSTNAME, h));
      }
    }
  }

  lemma ServicesLinkedGrow(t: Links, t': Links, cache: map<string, Ingress>, s: Services)
    requires ServicesLinked(t, cache, s) && Grew(t, t')
    ensures ServicesLinked(t', cache, s)
  {
  }

  lemma ServicesLinkedAfterRebuild(t: Links, t': Links, t'': Links, inputs: set<Ref>, out: set<Ref>,
                                   cache: map<string, Ingress>, cache': map<string, Ingress>, s: Services, s': Services,
                                   hosts: HostMap, list: seq<Ingress>)
    requires Symmetric(t) && Removed(t, t', out) && Grew(t', t'')
    requires forall r :: r in out <==> ReachableFromAny(t, inputs, r)
    requires DirtyClosure(cache, cache', s, s', NamesIn(out, INGRESS), NamesIn(out, HOSTNAME))
    requires PartialListing(list, cache', NamesIn(out, INGRESS))
    requires ServicesLinked(t, cache, s)
    requires forall h :: h in NamesIn(out, HOSTNAME) ==> h !in hosts
    requires forall h :: TriedLinked(t'', h, TriedInList(View(hosts, h), h, list, s'))
    ensures ServicesLinked(t'', cache', s')
  {
    forall h, r | ':' !in h && r in FullTried(cache', s', h) ensures Linked(t'', Ref(SERVICE, r.fullName), Ref(HOSTNAME, h)) {
      if h in NamesIn(out, HOSTNAME) {
        DirtyHostRebuilt(cache', s', list, NamesIn(out, INGRESS), NamesIn(out, HOSTNAME), h);
        assert TriedLinked(t'', h, TriedInList(View(hosts, h), h, list, s'));
      } else {
        CleanHostKept(cache, cache', s, s', NamesIn(out, INGRESS), NamesIn(out, HOSTNAME), h);
        InNames(out, HOSTNAME, h);
        LinkSurvives(t, t', inputs, out, Ref(SERVICE, r.fullName), Ref(HOSTNAME, h));
      }
    }
  }

  // ---------------------------------------------------------------- the converter

  class Converter {
    var hosts: HostMap
    var backs: BackMap
    const tracker: Tracker

    constructor ()
      ensures hosts == map[] && backs == map[] && tracker.tracking == map[] && fresh(tracker)
    {
      hosts := map[];
      backs := map[];
      tracker := new Tracker();
    }

    /** What every step of a sync keeps. */
    ghost predicate Coherent()
      reads this, tracker
    {
      && Symmetric(tracker.tracking)
      && BackendsLinked(tracker.tracking, hosts)
      && BacksMatch(hosts, backs)
    }

    /** The model is what a full sync of this state of the cluster builds, and the tracker knows why. */
    ghost predicate Synced(cache: map<string, Ingress>, services: Services)
      reads this, tracker
    {
      && Coherent()
      && ValidCache(cache)
      && hosts == FullHosts(cache, services)
      && IngressesLinked(tracker.tracking, cache)
      && ServicesLinked(tracker.tracking, cache, services)
    }

    /** addBackendWithClass: resolves the service of a path, tracking it first. */
    method AddBackend(ing: Ingress, hostname: string, service: ServiceRef, services: Services) returns (id: Option<string>)
      requires Symmetric(tracker.tracking)
      modifies tracker
      ensures Symmetric(tracker.tracking) && Grew(old(tracker.tracking), tracker.tracking)
      ensures id == if service in services then Some(services[service]) else None
      ensures ':' !in hostname ==> Linked(tracker.tracking, Ref(SERVICE, service.fullName), Ref(HOSTNAME, hostname))
      ensures ':' !in hostname ==> Linked(tracker.tracking, Ref(ENDPOINTS, service.fullName), Ref(HOSTNAME, hostname))
      ensures id.Some? ==> Linked(tracker.tracking, Ref(INGRESS, FullName(ing)), Ref(BACKEND, id.value))
    {
      var ctx := if ':' in hostname then TCP_SERVICE else HOSTNAME;
      tracker.TrackNames(SERVICE, service.fullName, ctx, hostname);
      tracker.TrackNames(ENDPOINTS, service.fullName, ctx, hostname);
      if service !in services {
        return None;
      }
      id := Some(services[service]);
      tracker.TrackNames(INGRESS, FullName(ing), BACKEND, id.value);
    }

    /** One path of a rule. */
    method SyncOnePath(ing: Ingress, hostname: string, p: IngressPath, services: Services)
      requires hostname in hosts && Coherent()
      requires Linked(tracker.tracking, Ref(INGRESS, FullName(ing)), Ref(HOSTNAME, hostname))
      modifies this, tracker
      ensures Coherent() && Grew(old(tracker.tracking), tracker.tracking)
      ensures hosts == old(hosts)[hostname := SyncPath(old(hosts)[hostname], ing, hostname, p, services)]
      ensures var t := TriedService(old(hosts)[hostname], ing, hostname, p);
              t.Some? && ':' !in hostname ==> Linked(tracker.tracking, Ref(SERVICE, t.value.fullName), Ref(HOSTNAME, hostname))
    {
      var paths := hosts[hostname];
      var link := LinkOf(ing, hostname, p);
      if Redeclared(paths, ing, link) {
        return;
      }
      if ing.redirectTo != "" {
        var bare := link.(headers := []);
        AddRedirectKeepsMatch(hosts, backs, hostname, bare, ing.redirectTo);
        BackendsLinkedAdds(tracker.tracking, hosts, hostname, bare, RedirTo(ing.redirectTo));
        hosts := hosts[hostname := AddLink(paths, bare, RedirTo(ing.redirectTo))];
        return;
      }
      if p.service.None? {
        return;
      }
      var id := AddBackend(ing, hostname, p.service.value, services);
      BackendsLinkedGrows(old(tracker.tracking), tracker.tracking, hosts);
      if id.None? {
        return;
      }
      AddLinkKeepsMatch(hosts, backs, hostname, link, id.value);
      assert SharesIngress(tracker.tracking, hostname, id.value);
      BackendsLinkedAdds(tracker.tracking, hosts, hostname, link, ToBackend(id.value));
      hosts := hosts[hostname := AddLink(paths, link, ToBackend(id.value))];
      backs := AddBack(backs, id.value, link);
    }

    /** addHost: the host exists and the ingress is tracked with it. */
    method AddHost(hostname: string, ing: Ingress)
      requires Coherent()
      modifies this, tracker
      ensures Coherent() && Grew(old(tracker.tracking), tracker.tracking)
      ensures hosts == old(hosts)[hostname := PathsOf(old(hosts), hostname)]
      ensures Linked(tracker.tracking, Ref(INGRESS, FullName(ing)), Ref(HOSTNAME, hostname))
    {
      if hostname !in hosts {
        EmptyHostKeeps(tracker.tracking, hosts, backs, hostname);
        hosts := hosts[hostname := []];
      }
      ghost var t := tracker.tracking;
      tracker.TrackNames(INGRESS, FullName(ing), HOSTNAME, hostname);
      BackendsLinkedGrows(t, tracker.tracking, hosts);
    }

    /** One rule of an ingress. */
    method SyncOneRule(ing: Ingress, rule: Rule, services: Services)
      requires Coherent()
      modifies this, tracker
      ensures Coherent() && Grew(old(tracker.tracking), tracker.tracking)
      ensures hosts == SyncRule(old(hosts), ing, rule, services)
      ensures forall h :: RuleOn(rule, h) ==>
                && Linked(tracker.tracking, Ref(INGRESS, FullName(ing)), Ref(HOSTNAME, h))
                && TriedLinked(tracker.tracking, h, TriedInPaths(PathsOf(old(hosts), h), ing, h, rule.http.value, services))
    {
      if rule.http.None? {
        return;
      }
      var h := NormalizeHostname(rule.host);
      AddHost(h, ing);
      SyncPathList(ing, h, rule.http.value, services);
    }

    /** What is known after the first `i` paths of a rule on host `h`. */
    ghost predicate PathsDone(paths: seq<HostPath>, ing: Ingress, h: string, ps: seq<IngressPath>, services: Services)
      reads this, tracker
    {
      && Linked(tracker.tracking, Ref(INGRESS, FullName(ing)), Ref(HOSTNAME, h))
      && h in hosts && hosts[h] == SyncPaths(paths, ing, h, ps, services)
      && TriedLinked(tracker.tracking, h, TriedInPaths(paths, ing, h, ps, services))
    }

    method SyncNextPath(ing: Ingress, h: string, ps: seq<IngressPath>, i: nat, services: Services, ghost paths: seq<HostPath>)
      requires i < |ps| && Coherent() && PathsDone(paths, ing, h, ps[..i], services)
      modifies this, tracker
      ensures Coherent() && Grew(old(tracker.tracking), tracker.tracking)
      ensures PathsDone(paths, ing, h, ps[..i + 1], services)
      ensures hosts == old(hosts)[h := hosts[h]]
    {
      PathsNext(paths, ing, h, ps, i, services);
      ghost var next := TriedService(hosts[h], ing, h, ps[i]);
      SyncOnePath(ing, h, ps[i], services);
      TriedLinkedNext(old(tracker.tracking), tracker.tracking, h, TriedInPaths(paths, ing, h, ps[..i], services), next);
    }

    method SyncPathList(ing: Ingress, h: string, ps: seq<IngressPath>, services: Services)
      requires h in hosts && Coherent()
      requires Linked(tracker.tracking, Ref(INGRESS, FullName(ing)), Ref(HOSTNAME, h))
      modifies this, tracker
      ensures Coherent() && Grew(old(tracker.tracking), tracker.tracking)
      ensures hosts == old(hosts)[h := SyncPaths(old(hosts)[h], ing, h, ps, services)]
      ensures TriedLinked(tracker.tracking, h, TriedInPaths(old(hosts)[h], ing, h, ps, services))
    {
      ghost var paths := hosts[h];
      for i := 0 to |ps|
        invariant Coherent() && Grew(old(tracker.tracking), tracker.tracking)
        invariant PathsDone(paths, ing, h, ps[..i], services)
        invariant hosts == old(hosts)[h := hosts[h]]
      {
        SyncNextPath(ing, h, ps, i, services, paths);
      }
      assert ps[..|ps|] == ps;
    }

    /** syncIngressHTTP */
    method SyncIngress(ing: Ingress, services: Services)
      requires Coherent()
      modifies this, tracker
      ensures Coherent() && Grew(old(tracker.tracking), tracker.tracking)
      ensures hosts == SyncRules(old(hosts), ing, ing.rules, services)
      ensures Tracked(tracker.tracking, [ing])
      ensures forall h :: TriedLinked(tracker.tracking, h, TriedInRules(View(old(hosts), h), h, ing, ing.rules, services))
    {
      var rules := ing.rules;
      for i := 0 to |rules|
        invariant Coherent() && Grew(old(tracker.tracking), tracker.tracking)
        invariant hosts == SyncRules(old(hosts), ing, rules[..i], services)
        invariant forall j, h :: 0 <= j < i && RuleOn(rules[j], h) ==>
                    Linked(tracker.tracking, Ref(INGRESS, FullName(ing)), Ref(HOSTNAME, h))
        invariant forall h :: TriedLinked(tracker.tracking, h, TriedInRules(View(old(hosts), h), h, ing, rules[..i], services))
      {
        ghost var t, before := tracker.tracking, hosts;
        SyncOneRule(ing, rules[i], services);
        assert rules[..i + 1][..i] == rules[..i];
        forall h ensures TriedLinked(tracker.tracking, h, TriedInRules(View(old(hosts), h), h, ing, rules[..i + 1], services)) {
          ViewOfRules(old(hosts), h, ing, rules[..i], services);
        }
      }
      assert rules[..|rules|] == rules;
    }

    method SyncAll(list: seq<Ingress>, services: Services)
      requires Coherent()
      modifies this, tracker
      ensures Coherent() && Grew(old(tracker.tracking), tracker.tracking)
      ensures hosts == SyncList(old(hosts), list, services)
      ensures Tracked(tracker.tracking, list)
      ensures forall h :: TriedLinked(tracker.tracking, h, TriedInList(View(old(hosts), h), h, list, services))
    {
      for i := 0 to |list|
        invariant Coherent() && Grew(old(tracker.tracking), tracker.tracking)
        invariant hosts == SyncList(old(hosts), list[..i], services)
        invariant Tracked(tracker.tracking, list[..i])
        invariant forall h :: TriedLinked(tracker.tracking, h, TriedInList(View(old(hosts), h), h, list[..i], services))
      {
        ghost var t := tracker.tracking;
        SyncIngress(list[i], services);
        assert list[..i + 1][..i] == list[..i];
        TrackedGrows(t, tracker.tracking, list[..i], list[i]);
        forall h ensures TriedLinked(tracker.tracking, h, TriedInList(View(old(hosts), h), h, list[..i + 1], services)) {
          ViewOfList(old(hosts), h, list[..i], services);
        }
      }
      assert list[..|list|] == list;
    }

    /** The ingress list of the cluster in processing order. */
    method SortedIngresses(cache: map<string, Ingress>) returns (list: seq<Ingress>)
      requires ValidCache(cache)
      ensures IsListing(list, cache.Values)
    {
      ValidCacheListing(cache);
      list := [];
      var todo := cache.Keys;
      ghost var done: set<Ingress> := {};
      while todo != {}
        invariant todo <= cache.Keys
        invariant done <= cache.Values
        invariant forall n :: n in todo ==> cache[n] !in done
        invariant forall n :: n in cache && n !in todo ==> cache[n] in done
        invariant IsListing(list, done)
        decreases todo
      {
        var n :| n in todo;
        todo := todo - {n};
        InsertListing(cache[n], list, done);
        list := Insert(cache[n], list, IngressLe);
        done := done + {cache[n]};
      }
      assert done == cache.Values;
    }

    method SyncFull(cache: map<string, Ingress>, services: Services)
      requires ValidCache(cache)
      modifies this, tracker
      ensures Synced(cache, services)
    {
      Clear();
      var list := SortedIngresses(cache);
      SyncAll(list, services);
      FullHostsOfListing(cache, list, services);
      ListingLinked(tracker.tracking, cache, list);
      TriedGivesServicesLinked(tracker.tracking, cache, services, list);
    }

    /** findBackend: the backend a service port leads to, if the model already has it. */
    method FindBackend(service: Option<ServiceRef>, services: Services) returns (id: Option<string>)
      ensures id.Some? <==> service.Some? && service.value in services && services[service.value] in backs
      ensures id.Some? ==> id.value == services[service.value]
    {
      if service.None? || service.value !in services || services[service.value] !in backs {
        return None;
      }
      return Some(services[service.value]);
    }

    /** trackAddedIngress, one rule: its host and the backends it will reuse. */
    method TrackRule(ing: Ingress, rule: Rule, services: Services)
      requires Symmetric(tracker.tracking)
      modifies tracker
      ensures Symmetric(tracker.tracking) && Grew(old(tracker.tracking), tracker.tracking)
      ensures Linked(tracker.tracking, Ref(INGRESS, FullName(ing)), Ref(HOSTNAME, NormalizeHostname(rule.host)))
      ensures rule.http.Some? ==> BacksTracked(tracker.tracking, backs, ing, rule.http.value, services)
    {
      tracker.TrackNames(INGRESS, FullName(ing), HOSTNAME, NormalizeHostname(rule.host));
      if rule.http.Some? {
        var ps := rule.http.value;
        for i := 0 to |ps|
          invariant Symmetric(tracker.tracking) && Grew(old(tracker.tracking), tracker.tracking)
          invariant Linked(tracker.tracking, Ref(INGRESS, FullName(ing)), Ref(HOSTNAME, NormalizeHostname(rule.host)))
          invariant BacksTracked(tracker.tracking, backs, ing, ps[..i], services)
        {
          assert ps[..i + 1] == ps[..i] + [ps[i]];
          var id := FindBackend(ps[i].service, services);
          if id.Some? {
            tracker.TrackNames(INGRESS, FullName(ing), BACKEND, id.value);
          }
        }
        assert ps[..|ps|] == ps;
      }
    }

    method TrackIngress(ing: Ingress, services: Services)
      requires Symmetric(tracker.tracking)
      modifies tracker
      ensures Symmetric(tracker.tracking) && Grew(old(tracker.tracking), tracker.tracking)
      ensures Tracked(tracker.tracking, [ing])
      ensures AllBacksTracked(tracker.tracking, backs, ing, services)
    {
      for i := 0 to |ing.rules|
        invariant forall j :: 0 <= j < i && ing.rules[j].http.Some? ==>
                    BacksTracked(tracker.tracking, backs, ing, ing.rules[j].http.value, services)
        invariant Symmetric(tracker.tracking) && Grew(old(tracker.tracking), tracker.tracking)
        invariant forall j, h :: 0 <= j < i && RuleOn(ing.rules[j], h) ==>
                    Linked(tracker.tracking, Ref(INGRESS, FullName(ing)), Ref(HOSTNAME, h))
      {
        TrackRule(ing, ing.rules[i], services);
      }
    }

    method TrackAddedIngress(changed: Changed, services: Services)
      requires Symmetric(tracker.tracking)
      modifies tracker
      ensures Symmetric(tracker.tracking) && Grew(old(tracker.tracking), tracker.tracking)
      ensures Tracked(tracker.tracking, changed.add + changed.upd)
      ensures forall x :: x in changed.add + changed.upd ==> AllBacksTracked(tracker.tracking, backs, x, services)
    {
      var ings := changed.add + changed.upd;
      for i := 0 to |ings|
        invariant forall x :: x in ings[..i] ==> AllBacksTracked(tracker.tracking, backs, x, services)
        invariant Symmetric(tracker.tracking) && Grew(old(tracker.tracking), tracker.tracking)
        invariant Tracked(tracker.tracking, ings[..i])
      {
        ghost var t := tracker.tracking;
        TrackIngress(ings[i], services);
        TrackedGrows(t, tracker.tracking, ings[..i], ings[i]);
        BacksTrackedGrow(t, tracker.tracking, backs, ings[..i], ings[i], services);
        assert ings[..i + 1] == ings[..i] + [ings[i]];
      }
      assert ings[..|ings|] == ings;
    }

    /** The dirty ingress resources without the deleted ones. */
    method KeepDirty(dirtyIngs: seq<string>, del: seq<Ingress>, cache: map<string, Ingress>) returns (ingMap: map<string, Ingress>)
      ensures ingMap == KeptMap((set n | n in dirtyIngs), del, cache)
    {
      ghost var dirty := set n | n in dirtyIngs;
      ingMap := map n | n in dirtyIngs && n in cache :: cache[n];
      for i := 0 to |del|
        invariant ingMap == KeptMap(dirty, del[..i], cache)
      {
        assert DelNames(del[..i + 1]) == DelNames(del[..i]) + {FullName(del[i])} by {
          assert del[..i + 1] == del[..i] + [del[i]];
        }
        ingMap := ingMap - {FullName(del[i])};
      }
      assert del[..|del|] == del;
    }

    /** Merges dirty and added ingress resources into a single sorted list. */
    method MergeIngresses(dirtyIngs: seq<string>, changed: Changed, cache: map<string, Ingress>) returns (list: seq<Ingress>)
      requires ValidCache(cache)
      ensures IsListing(list, MergedMap((set n | n in dirtyIngs), changed, cache).Values)
    {
      var ingMap := KeepDirty(dirtyIngs, changed.del, cache);
      ghost var kept := ingMap;
      for i := 0 to |changed.add|
        invariant ingMap == kept + AddMap(changed.add[..i])
      {
        ingMap := ingMap[FullName(changed.add[i]) := changed.add[i]];
        assert changed.add[..i + 1][..i] == changed.add[..i];
      }
      assert changed.add[..|changed.add|] == changed.add;
      MergedIsValid((set n | n in dirtyIngs), changed, cache);
      list := SortedIngresses(ingMap);
    }

    /** First half of syncPartial: finds the dirty closure and removes its hosts and backends. */
    method RemoveDirty(changed: Changed, services: Services)
      returns (dirtyIngs: seq<string>, ghost t: Links, ghost out: set<Ref>)
      requires Coherent()
      modifies this, tracker
      ensures Coherent()
      ensures Symmetric(t) && Grew(old(tracker.tracking), t) && Tracked(t, changed.add + changed.upd)
      ensures forall r :: r in out <==> ReachableFromAny(t, RefsOf(changed.links), r)
      ensures Removed(t, tracker.tracking, out)
      ensures (set n | n in dirtyIngs) == NamesIn(out, INGRESS)
      ensures hosts == old(hosts) - NamesIn(out, HOSTNAME)
    {
      TrackAddedIngress(changed, services);
      t := tracker.tracking;
      BackendsLinkedGrows(old(tracker.tracking), t, hosts);
      var tracked := tracker.QueryLinks(changed.links, true);
      out := RefsOf(tracked);
      RemovalKeepsBackends(t, tracker.tracking, RefsOf(changed.links), out, hosts, backs);
      dirtyIngs := NamesOf(tracked, INGRESS);
      hosts := hosts - (set n | n in NamesOf(tracked, HOSTNAME));
      backs := backs - (set n | n in NamesOf(tracked, BACKEND));
    }

    /**
     syncPartial: from the model of the old state of the cluster to the model of the
     new one, touching only what the changes can reach.
     */
    method SyncPartial(changed: Changed, cache: map<string, Ingress>, services: Services,
                       ghost oldCache: map<string, Ingress>, ghost oldServices: Services)
      requires Synced(oldCache, oldServices)
      requires Accounted(changed, oldCache, cache, oldServices, services)
      modifies this, tracker
      ensures Synced(Effective(changed, cache), services)
      ensures hosts == FullHosts(Effective(changed, cache), services)
      ensures AddsCurrent(changed, cache) ==> Synced(cache, services)
      ensures hosts.Keys == FullHosts(cache, services).Keys <==> NoStrayHosts(changed, cache)
    {
      AccountedEffective(changed, oldCache, cache, oldServices, services);
      ServedIffNoStray(changed, cache, services);
      Rebuild(changed, cache, Effective(changed, cache), services, oldCache, oldServices);
    }

    /** The work of syncPartial, for the cluster that it takes as the new one. */
    method Rebuild(changed: Changed, cache: map<string, Ingress>, ghost effective: map<string, Ingress>, services: Services,
                   ghost oldCache: map<string, Ingress>, ghost oldServices: Services)
      requires Synced(oldCache, oldServices) && ValidCache(cache)
      requires effective == Effective(changed, cache)
      requires Consistent(changed, oldCache, effective, oldServices, services)
      modifies this, tracker
      ensures Synced(effective, services)
    {
      hide Grew, Tracked, Removed, DirtyClosure, PartialListing, IngressesLinked, ServicesLinked, TriedLinked, IsListing,
           MergedMap, ReachableFromAny, Consistent, Symmetric, BackendsLinked, BacksMatch, FullHosts, RefsOf;
      ghost var t0, inputs := tracker.tracking, RefsOf(changed.links);
      var dirtyIngs, t, out := RemoveDirty(changed, services);
      ghost var t', start := tracker.tracking, hosts;
      QueryIsDirtyClosure(t0, t, changed, out, oldCache, effective, oldServices, services);
      var list := MergeIngresses(dirtyIngs, changed, cache);
      MergedEffective(NamesIn(out, INGRESS), changed, cache);
      ListIsPartial(t, inputs, out, changed, oldCache, effective, oldServices, services, list);
      SyncAll(list, services);
      PartialEqualsFull(oldCache, effective, oldServices, services, NamesIn(out, INGRESS), NamesIn(out, HOSTNAME), list);
      IngressesLinkedAfterTracking(t0, t, changed, oldCache, effective, oldServices, services);
      IngressesLinkedAfterRebuild(t, t', tracker.tracking, inputs, out, effective, list);
      ServicesLinkedGrow(t0, t, oldCache, oldServices);
      ServicesLinkedAfterRebuild(t, t', tracker.tracking, inputs, out, oldCache, effective, oldServices, services, start, list);
    }

    /**
     Any run of full and partial syncs leaves the hosts and the backends of a full
     sync of the last state of the cluster.
     */
    method Run(batches: seq<Batch>) returns (ghost cache: map<string, Ingress>, ghost services: Services)
      requires hosts == map[] && backs == map[] && tracker.tracking == map[]
      requires ConsistentRun(map[], map[], batches)
      modifies this, tracker
      ensures (cache, services) == LastState(map[], map[], batches)
      ensures hosts == FullHosts(cache, services)
      ensures forall b: BackMap :: BacksMatch(FullHosts(cache, services), b) ==> b == backs
    {
      cache, services := map[], map[];
      EmptyIsSynced(map[]);
      for i := 0 to |batches|
        invariant Synced(cache, services)
        invariant (cache, services) == LastState(map[], map[], batches[..i])
        invariant ConsistentRun(cache, services, batches[i..])
      {
        match batches[i] {
          case FullSync(c, s) =>
            SyncFull(c, s);
          case PartialSync(changed, c, s) =>
            SyncPartial(changed, c, s, cache, services);
        }
        assert batches[..i + 1][..i] == batches[..i];
        assert batches[i..][1..] == batches[i + 1..];
        cache, services := batches[i].cache, batches[i].services;
      }
      assert batches[..|batches|] == batches;
      forall b: BackMap | BacksMatch(FullHosts(cache, services), b) ensures b == backs {
        BacksUnique(hosts, b, backs);
      }
    }

    lemma EmptyIsSynced(s: Services)
      requires hosts == map[] && backs == map[] && tracker.tracking == map[]
      ensures Synced(map[], s)
    {
      var empty: map<string, Ingress> := map[];
      assert empty.Values == {};
    }

    /** A full sync starts over, forgetting every link. */
    method Clear()
      modifies this, tracker
      ensures Coherent() && hosts == map[]
    {
      tracker.ClearLinks();
      hosts := map[];
      backs := map[];
    }
  }

  /**
   Two notifications for one ingress in a batch are not safe: an ingress created and deleted before the batch
   is processed is still synced, and its hosts outlive it.
   */
  method AddedThenDeletedIsServed(x: Ingress, services: Services) returns (c: Converter)
    ensures fresh(c)
    ensures forall h :: h in c.hosts <==> IngressOn(x, h)
    ensures FullHosts(map[], services) == map[]
    ensures c.hosts.Keys == FullHosts(map[], services).Keys <==> forall h :: !IngressOn(x, h)
  {
    c := new Converter();
    c.EmptyIsSynced(services);
    AddedThenDeletedIsAccounted(x, services);
    c.SyncPartial(AddedThenDeleted(x), map[], services, map[], services);
    var only := map[FullName(x) := x];
    forall h ensures h in c.hosts <==> IngressOn(x, h) {
      FullServes(only, services, h);
      assert only[FullName(x)] == x;
    }
  }

  /** The names a query result lists for a resource type. */
  function NamesOf(output: map<string, seq<string>>, ctx: string): (names: seq<string>)
    ensures (set n | n in names) == NamesIn(RefsOf(output), ctx)
  {
    var names := if ctx in output then output[ctx] else [];
    assert (set n | n in names) == NamesIn(RefsOf(output), ctx) by {
      forall n ensures n in names <==> n in NamesIn(RefsOf(output), ctx) {
        InNames(RefsOf(output), ctx, n);
      }
    }
    names
  }

  lemma ListIsPartial(t: Links, inputs: set<Ref>, out: set<Ref>, changed: Changed,
                      cache: map<string, Ingress>, cache': map<string, Ingress>, s: Services, s': Services, list: seq<Ingress>)
    requires Symmetric(t) && Tracked(t, changed.add + changed.upd) && inputs == RefsOf(changed.links)
    requires forall r :: r in out <==> ReachableFromAny(t, inputs, r)
    requires Consistent(changed, cache, cache', s, s')
    requires DirtyClosure(cache, cache', s, s', NamesIn(out, INGRESS), NamesIn(out, HOSTNAME))
    requires IsListing(list, MergedMap(NamesIn(out, INGRESS), changed, cache').Values)
    ensures PartialListing(list, cache', NamesIn(out, INGRESS))
  {
    forall x, h | x in changed.add && IngressOn(x, h) ensures FullName(x) in NamesIn(out, INGRESS) {
      assert x in changed.add + changed.upd;
      InNames(out, INGRESS, FullName(x));
      OutTogether(t, inputs, out, Ref(INGRESS, FullName(x)), Ref(HOSTNAME, h));
    }
    MergedIsPartialListing(NamesIn(out, INGRESS), changed, cache, cache', s, s', list);
  }

  /** Every service of the set is linked to the host, if the name is that of an HTTP host. */
  ghost predicate TriedLinked(t: Links, h: string, refs: set<ServiceRef>)
  {
    forall r :: r in refs && ':' !in h ==> Linked(t, Ref(SERVICE, r.fullName), Ref(HOSTNAME, h))
  }

  lemma TriedGivesServicesLinked(t: Links, cache: map<string, Ingress>, services: Services, list: seq<Ingress>)
    requires list == ListOf(cache.Values)
    requires forall h :: TriedLinked(t, h, TriedInList(View(map[], h), h, list, services))
    ensures ServicesLinked(t, cache, services)
  {
    forall h, r | ':' !in h && r in FullTried(cache, services, h)
      ensures Linked(t, Ref(SERVICE, r.fullName), Ref(HOSTNAME, h))
    {
      assert TriedLinked(t, h, TriedInList(View(map[], h), h, list, services));
    }
  }

  lemma ListingLinked(t: Links, cache: map<string, Ingress>, list: seq<Ingress>)
    requires ValidCache(cache) && IsListing(list, cache.Values) && Tracked(t, list)
    ensures IngressesLinked(t, cache)
  {
    forall n, h | n in cache && IngressOn(cache[n], h) ensures Linked(t, Ref(INGRESS, n), Ref(HOSTNAME, h)) {
      assert cache[n] in cache.Values;
    }
  }

  lemma TriedLinkedNext(t: Links, t': Links, h: string, refs: set<ServiceRef>, next: Option<ServiceRef>)
    requires Grew(t, t') && TriedLinked(t, h, refs)
    requires next.Some? && ':' !in h ==> Linked(t', Ref(SERVICE, next.value.fullName), Ref(HOSTNAME, h))
    ensures TriedLinked(t', h, refs + if next.Some? then {next.value} else {})
  {
    forall r | r in refs && ':' !in h ensures Linked(t', Ref(SERVICE, r.fullName), Ref(HOSTNAME, h)) {
      assert Linked(t, Ref(SERVICE, r.fullName), Ref(HOSTNAME, h));
    }
  }

  lemma TrackedGrows(t: Links, t': Links, ings: seq<Ingress>, ing: Ingress)
    requires Grew(t, t') && Tracked(t, ings) && Tracked(t', [ing])
    ensures Tracked(t', ings + [ing])
  {
    forall x, h | x in ings + [ing] && IngressOn(x, h) ensures Linked(t', Ref(INGRESS, FullName(x)), Ref(HOSTNAME, h)) {
      if x in ings {
        assert Linked(t, Ref(INGRESS, FullName(x)), Ref(HOSTNAME, h));
      } else {
        assert x in [ing];
      }
    }
  }
}
