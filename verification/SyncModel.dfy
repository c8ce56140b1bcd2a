/**
 What a sync of a list of ingress resources does to the hosts, as functions, and the
 theorem that rebuilding only the dirty hosts gives what a full rebuild gives.
 */
module SyncModel {
  import opened Model
  import opened Ordering

  const DEFAULT_HOST := "<default>"

  /** A service and port as an ingress path names them. */
  datatype ServiceRef = ServiceRef(fullName: string, port: string)

  /** The backend each resolvable service port leads to; the others are errors. */
  type Services = map<ServiceRef, string>

  /** `service` is absent when the path has no usable service backend. */
  datatype IngressPath = IngressPath(path: string, match_: MatchType, service: Option<ServiceRef>)

  datatype Rule = Rule(host: string, http: Option<seq<IngressPath>>)

  datatype Ingress = Ingress(
    namespace: string,
    name: string,
    created: int,
    sslPassthrough: bool,
    headers: seq<HTTPMatch>,
    redirectTo: string,
    rules: seq<Rule>)

  datatype Target = ToBackend(id: string) | RedirTo(url: string)

  datatype HostPath = HostPath(link: PathLink, target: Target, order: nat)

  type HostMap = map<string, seq<HostPath>>

  function FullName(ing: Ingress): string
  {
    ing.namespace + "/" + ing.name
  }

  function NormalizeHostname(host: string): string
  {
    if host == "" then DEFAULT_HOST else host
  }

  // ---------------------------------------------------------------- sortIngress

  predicate IngressLess(a: Ingress, b: Ingress)
  {
    if a.created != b.created then a.created < b.created
    else LexLess(FullName(a), FullName(b))
  }

  predicate IngressLe(a: Ingress, b: Ingress)
  {
    !IngressLess(b, a)
  }

  lemma IngressOrder()
    ensures TotalPreorder(IngressLe) && Asymmetric(IngressLess)
  {
    forall x, y ensures (IngressLess(x, y) ==> !IngressLess(y, x)) && (IngressLe(x, y) || IngressLe(y, x)) {
      LexTotal(FullName(x), FullName(y));
      if LexLess(FullName(x), FullName(y)) && LexLess(FullName(y), FullName(x)) {
        LexAntisymmetric(FullName(x), FullName(y));
      }
    }
    forall x, y, z | IngressLe(x, y) && IngressLe(y, z) ensures IngressLe(x, z) {
      IngressLeNames(x, y);
      IngressLeNames(y, z);
      if x.created == y.created == z.created {
        LexTransitive(FullName(x), FullName(y), FullName(z));
        if LexLess(FullName(z), FullName(x)) {
          LexAntisymmetric(FullName(x), FullName(z));
        }
      }
    }
  }

  lemma IngressLeNames(x: Ingress, y: Ingress)
    requires IngressLe(x, y)
    ensures x.created <= y.created
    ensures x.created == y.created ==> LexLe(FullName(x), FullName(y))
  {
    LexTotal(FullName(x), FullName(y));
    LexReflexive(FullName(x));
  }

  ghost predicate UniqueNames(s: set<Ingress>)
  {
    forall a, b :: a in s && b in s && FullName(a) == FullName(b) ==> a == b
  }

  /** `list` is `s` in the order sortIngress gives it. */
  ghost predicate IsListing(list: seq<Ingress>, s: set<Ingress>)
  {
    SortedBy(list, IngressLess) && forall x :: x in list <==> x in s
  }

  ghost function ListOf(s: set<Ingress>): seq<Ingress>
  {
    if s == {} then []
    else
      var x :| x in s;
      Insert(x, ListOf(s - {x}), IngressLe)
  }

  /** Sorting distinct names without regard to the incoming order gives strict order. */
  lemma StrictlySorted(list: seq<Ingress>)
    requires SortedBy(list, IngressLe)
    requires DistinctNames(list)
    ensures SortedBy(list, IngressLess)
  {
    forall i, j | 0 <= i < j < |list| ensures IngressLess(list[i], list[j]) {
      assert IngressLe(list[i], list[j]);
      IngressLeNames(list[i], list[j]);
    }
  }

  lemma {:induction false} InsertMembers(x: Ingress, s: seq<Ingress>)
    ensures forall y :: y in Insert(x, s, IngressLe) <==> y == x || y in s
  {
    forall y ensures y in Insert(x, s, IngressLe) <==> y == x || y in s {
      assert y in multiset(Insert(x, s, IngressLe)) <==> y in multiset{x} + multiset(s);
    }
  }

  predicate DistinctNames(s: seq<Ingress>)
  {
    forall i, j :: 0 <= i < j < |s| ==> FullName(s[i]) != FullName(s[j])
  }

  lemma InsertListing(x: Ingress, list: seq<Ingress>, s: set<Ingress>)
    requires IsListing(list, s) && UniqueNames(s + {x}) && x !in s
    ensures IsListing(Insert(x, list, IngressLe), s + {x})
  {
    IngressOrder();
    ListingDistinct(list, s);
    InsertSorted(x, list, IngressLe);
    InsertMembers(x, list);
    InsertDistinct(x, list);
    StrictlySorted(Insert(x, list, IngressLe));
  }

  lemma ListingDistinct(list: seq<Ingress>, s: set<Ingress>)
    requires IsListing(list, s) && UniqueNames(s)
    ensures DistinctNames(list) && SortedBy(list, IngressLe)
  {
    IngressOrder();
    forall i, j | 0 <= i < j < |list| ensures FullName(list[i]) != FullName(list[j]) && IngressLe(list[i], list[j]) {
      assert IngressLess(list[i], list[j]);
      assert list[i] in s && list[j] in s;
    }
  }

  lemma {:induction false} ListOfListing(s: set<Ingress>)
    requires UniqueNames(s)
    ensures IsListing(ListOf(s), s)
  {
    if s != {} {
      var x :| x in s && ListOf(s) == Insert(x, ListOf(s - {x}), IngressLe);
      ListOfListing(s - {x});
      assert s == s - {x} + {x};
      InsertListing(x, ListOf(s - {x}), s - {x});
    }
  }

  lemma {:induction false} InsertDistinct(x: Ingress, s: seq<Ingress>)
    requires forall y :: y in s ==> FullName(y) != FullName(x)
    requires DistinctNames(s)
    ensures DistinctNames(Insert(x, s, IngressLe))
  {
    if s != [] && !IngressLe(x, s[0]) {
      InsertDistinct(x, s[1..]);
      InsertMembers(x, s[1..]);
      var r := Insert(x, s[1..], IngressLe);
      forall j | 0 <= j < |r| ensures FullName(s[0]) != FullName(r[j]) {
        assert r[j] == x || r[j] in s[1..];
      }
      assert Insert(x, s, IngressLe) == [s[0]] + r;
    }
  }

  // ---------------------------------------------------------------- syncIngressHTTP

  predicate HostPathLe(a: HostPath, b: HostPath)
  {
    if a.link.path == b.link.path then a.order <= b.order
    else LexLess(b.link.path, a.link.path)
  }

  /** addLink: appended, then sorted by descending path and ascending arrival. */
  function AddLink(paths: seq<HostPath>, link: PathLink, target: Target): seq<HostPath>
  {
    Sort(paths + [HostPath(link, target, |paths|)], HostPathLe)
  }

  function UriOf(p: IngressPath): string
  {
    if p.path == "" then "/" else p.path
  }

  function LinkOf(ing: Ingress, hostname: string, p: IngressPath): PathLink
  {
    PathLink(hostname, UriOf(p), p.match_, ing.headers)
  }

  /** The path is already served by the host, so a later declaration of it is skipped. */
  predicate Redeclared(paths: seq<HostPath>, ing: Ingress, link: PathLink)
  {
    if ing.sslPassthrough && link.path == "/" then
      exists i :: 0 <= i < |paths| && paths[i].link.path == "/" && paths[i].link.headers == []
    else
      exists i :: 0 <= i < |paths| && paths[i].link == link
  }

  /** The service a path declaration is resolved with, if it gets that far. */
  function TriedService(paths: seq<HostPath>, ing: Ingress, hostname: string, p: IngressPath): Option<ServiceRef>
  {
    if Redeclared(paths, ing, LinkOf(ing, hostname, p)) || ing.redirectTo != "" then None else p.service
  }

  function SyncPath(paths: seq<HostPath>, ing: Ingress, hostname: string, p: IngressPath, services: Services): seq<HostPath>
  {
    var link := LinkOf(ing, hostname, p);
    if Redeclared(paths, ing, link) then paths
    else if ing.redirectTo != "" then
      AddLink(paths, link.(headers := []), RedirTo(ing.redirectTo))
    else if p.service.None? || p.service.value !in services then paths
    else AddLink(paths, link, ToBackend(services[p.service.value]))
  }

  function SyncPaths(paths: seq<HostPath>, ing: Ingress, hostname: string, ps: seq<IngressPath>, services: Services): seq<HostPath>
  {
    if ps == [] then paths
    else
      var n := |ps| - 1;
      SyncPath(SyncPaths(paths, ing, hostname, ps[..n], services), ing, hostname, ps[n], services)
  }

  function PathsOf(hosts: HostMap, hostname: string): seq<HostPath>
  {
    if hostname in hosts then hosts[hostname] else []
  }

  function SyncRule(hosts: HostMap, ing: Ingress, rule: Rule, services: Services): HostMap
  {
    if rule.http.None? then hosts
    else
      var h := NormalizeHostname(rule.host);
      hosts[h := SyncPaths(PathsOf(hosts, h), ing, h, rule.http.value, services)]
  }

  function SyncRules(hosts: HostMap, ing: Ingress, rules: seq<Rule>, services: Services): HostMap
  {
    if rules == [] then hosts
    else
      var n := |rules| - 1;
      SyncRule(SyncRules(hosts, ing, rules[..n], services), ing, rules[n], services)
  }

  function SyncList(hosts: HostMap, ings: seq<Ingress>, services: Services): HostMap
  {
    if ings == [] then hosts
    else
      var n := |ings| - 1;
      SyncRules(SyncList(hosts, ings[..n], services), ings[n], ings[n].rules, services)
  }

  /** What a full sync builds. */
  ghost function FullHosts(cache: map<string, Ingress>, services: Services): HostMap
  {
    SyncList(map[], ListOf(cache.Values), services)
  }

  ghost predicate ValidCache(cache: map<string, Ingress>)
  {
    forall n :: n in cache ==> FullName(cache[n]) == n
  }

  lemma ValidCacheListing(cache: map<string, Ingress>)
    requires ValidCache(cache)
    ensures UniqueNames(cache.Values)
    ensures IsListing(ListOf(cache.Values), cache.Values)
  {
    forall a, b | a in cache.Values && b in cache.Values && FullName(a) == FullName(b) ensures a == b {
      var m :| m in cache && cache[m] == a;
      var n :| n in cache && cache[n] == b;
    }
    ListOfListing(cache.Values);
  }

  lemma FullHostsOfListing(cache: map<string, Ingress>, list: seq<Ingress>, services: Services)
    requires ValidCache(cache) && IsListing(list, cache.Values)
    ensures SyncList(map[], list, services) == FullHosts(cache, services)
    ensures list == ListOf(cache.Values)
  {
    ValidCacheListing(cache);
    IngressOrder();
    AscendingUnique(list, ListOf(cache.Values), IngressLess);
  }

  // ---------------------------------------------------------------- one host at a time

  predicate RuleOn(rule: Rule, h: string)
  {
    rule.http.Some? && NormalizeHostname(rule.host) == h
  }

  predicate IngressOn(ing: Ingress, h: string)
  {
    exists i :: 0 <= i < |ing.rules| && RuleOn(ing.rules[i], h)
  }

  function View(hosts: HostMap, h: string): Option<seq<HostPath>>
  {
    if h in hosts then Some(hosts[h]) else None
  }

  function Content(v: Option<seq<HostPath>>): seq<HostPath>
  {
    if v.Some? then v.value else []
  }

  function RunRules(v: Option<seq<HostPath>>, h: string, ing: Ingress, rules: seq<Rule>, services: Services): Option<seq<HostPath>>
  {
    if rules == [] then v
    else
      var n := |rules| - 1;
      var w := RunRules(v, h, ing, rules[..n], services);
      if RuleOn(rules[n], h) then Some(SyncPaths(Content(w), ing, h, rules[n].http.value, services)) else w
  }

  function RunList(v: Option<seq<HostPath>>, h: string, ings: seq<Ingress>, services: Services): Option<seq<HostPath>>
  {
    if ings == [] then v
    else
      var n := |ings| - 1;
      RunRules(RunList(v, h, ings[..n], services), h, ings[n], ings[n].rules, services)
  }

  lemma {:induction false} ViewOfRules(hosts: HostMap, h: string, ing: Ingress, rules: seq<Rule>, services: Services)
    ensures View(SyncRules(hosts, ing, rules, services), h) == RunRules(View(hosts, h), h, ing, rules, services)
  {
    if rules != [] {
      ViewOfRules(hosts, h, ing, rules[..|rules| - 1], services);
    }
  }

  /** Hosts do not interfere: a sync seen at one host is a run over that host alone. */
  lemma {:induction false} ViewOfList(hosts: HostMap, h: string, ings: seq<Ingress>, services: Services)
    ensures View(SyncList(hosts, ings, services), h) == RunList(View(hosts, h), h, ings, services)
  {
    if ings != [] {
      var n := |ings| - 1;
      ViewOfList(hosts, h, ings[..n], services);
      ViewOfRules(SyncList(hosts, ings[..n], services), h, ings[n], ings[n].rules, services);
    }
  }

  lemma {:induction false} RunRulesElsewhere(v: Option<seq<HostPath>>, h: string, ing: Ingress, rules: seq<Rule>, services: Services)
    requires forall i :: 0 <= i < |rules| ==> !RuleOn(rules[i], h)
    ensures RunRules(v, h, ing, rules, services) == v
    ensures TriedInRules(v, h, ing, rules, services) == {}
  {
    if rules != [] {
      RunRulesElsewhere(v, h, ing, rules[..|rules| - 1], services);
    }
  }

  function OnHost(ings: seq<Ingress>, h: string): seq<Ingress>
  {
    if ings == [] then []
    else
      var n := |ings| - 1;
      OnHost(ings[..n], h) + if IngressOn(ings[n], h) then [ings[n]] else []
  }

  lemma {:induction false} OnHostMembers(ings: seq<Ingress>, h: string, x: Ingress)
    ensures x in OnHost(ings, h) <==> x in ings && IngressOn(x, h)
  {
    if ings != [] {
      var n := |ings| - 1;
      OnHostMembers(ings[..n], h, x);
      assert ings == ings[..n] + [ings[n]];
    }
  }

  lemma {:induction false} OnHostSorted(ings: seq<Ingress>, h: string)
    requires SortedBy(ings, IngressLess)
    ensures SortedBy(OnHost(ings, h), IngressLess)
  {
    if ings != [] {
      var n := |ings| - 1;
      OnHostSorted(ings[..n], h);
      var r := OnHost(ings[..n], h);
      forall i | 0 <= i < |r| ensures IngressLess(r[i], ings[n]) {
        OnHostMembers(ings[..n], h, r[i]);
      }
    }
  }

  lemma RunListNext(v: Option<seq<HostPath>>, h: string, ings: seq<Ingress>, x: Ingress, services: Services)
    ensures RunList(v, h, ings + [x], services) == RunRules(RunList(v, h, ings, services), h, x, x.rules, services)
    ensures TriedInList(v, h, ings + [x], services) ==
            TriedInList(v, h, ings, services) + TriedInRules(RunList(v, h, ings, services), h, x, x.rules, services)
  {
    assert (ings + [x])[..|ings|] == ings;
  }

  /** Ingress resources without a rule on the host make no difference to it. */
  lemma {:induction false} RunListOnHost(v: Option<seq<HostPath>>, h: string, ings: seq<Ingress>, services: Services)
    ensures RunList(v, h, ings, services) == RunList(v, h, OnHost(ings, h), services)
    ensures TriedInList(v, h, ings, services) == TriedInList(v, h, OnHost(ings, h), services)
  {
    hide RunRules, TriedInRules, RuleOn;
    if ings != [] {
      var n := |ings| - 1;
      var x, r := ings[n], OnHost(ings[..n], h);
      RunListOnHost(v, h, ings[..n], services);
      RunListNext(v, h, ings[..n], x, services);
      assert ings == ings[..n] + [x];
      if IngressOn(x, h) {
        RunListNext(v, h, r, x, services);
        assert OnHost(ings, h) == r + [x];
      } else {
        RunRulesElsewhere(RunList(v, h, ings[..n], services), h, x, x.rules, services);
        assert OnHost(ings, h) == r;
      }
    }
  }

  lemma SameOnHost(list: seq<Ingress>, list': seq<Ingress>, h: string)
    requires SortedBy(list, IngressLess) && SortedBy(list', IngressLess)
    requires forall x :: IngressOn(x, h) ==> (x in list <==> x in list')
    ensures OnHost(list, h) == OnHost(list', h)
  {
    forall x ensures x in OnHost(list, h) <==> x in OnHost(list', h) {
      OnHostMembers(list, h, x);
      OnHostMembers(list', h, x);
    }
    OnHostSorted(list, h);
    OnHostSorted(list', h);
    IngressOrder();
    AscendingUnique(OnHost(list, h), OnHost(list', h), IngressLess);
  }

  // ---------------------------------------------------------------- services a host depends on

  function TriedInPaths(paths: seq<HostPath>, ing: Ingress, h: string, ps: seq<IngressPath>, services: Services): set<ServiceRef>
  {
    if ps == [] then {}
    else
      var n := |ps| - 1;
      var t := TriedService(SyncPaths(paths, ing, h, ps[..n], services), ing, h, ps[n]);
      TriedInPaths(paths, ing, h, ps[..n], services) + if t.Some? then {t.value} else {}
  }

  function TriedInRules(v: Option<seq<HostPath>>, h: string, ing: Ingress, rules: seq<Rule>, services: Services): set<ServiceRef>
  {
    if rules == [] then {}
    else
      var n := |rules| - 1;
      TriedInRules(v, h, ing, rules[..n], services) +
      if RuleOn(rules[n], h) then
        TriedInPaths(Content(RunRules(v, h, ing, rules[..n], services)), ing, h, rules[n].http.value, services)
      else {}
  }

  function TriedInList(v: Option<seq<HostPath>>, h: string, ings: seq<Ingress>, services: Services): set<ServiceRef>
  {
    if ings == [] then {}
    else
      var n := |ings| - 1;
      TriedInList(v, h, ings[..n], services) +
      TriedInRules(RunList(v, h, ings[..n], services), h, ings[n], ings[n].rules, services)
  }

  /** The services whose resolution the content of a host depends on. */
  ghost function FullTried(cache: map<string, Ingress>, services: Services, h: string): set<ServiceRef>
  {
    TriedInList(None, h, ListOf(cache.Values), services)
  }

  predicate AgreeAt(s: Services, s': Services, r: ServiceRef)
  {
    (r in s <==> r in s') && (r in s ==> s[r] == s'[r])
  }

  lemma PathsNext(paths: seq<HostPath>, ing: Ingress, h: string, ps: seq<IngressPath>, i: nat, services: Services)
    requires i < |ps|
    ensures var before := SyncPaths(paths, ing, h, ps[..i], services);
            var t := TriedService(before, ing, h, ps[i]);
            && SyncPaths(paths, ing, h, ps[..i + 1], services) == SyncPath(before, ing, h, ps[i], services)
            && TriedInPaths(paths, ing, h, ps[..i + 1], services) ==
               TriedInPaths(paths, ing, h, ps[..i], services) + if t.Some? then {t.value} else {}
  {
    assert ps[..i + 1][..i] == ps[..i];
  }

  ghost predicate AgreeOn(s: Services, s': Services, refs: set<ServiceRef>)
  {
    forall r :: r in refs ==> AgreeAt(s, s', r)
  }

  lemma {:induction false} AgreePaths(paths: seq<HostPath>, ing: Ingress, h: string, ps: seq<IngressPath>, s: Services, s': Services)
    requires AgreeOn(s, s', TriedInPaths(paths, ing, h, ps, s))
    ensures SyncPaths(paths, ing, h, ps, s) == SyncPaths(paths, ing, h, ps, s')
    ensures TriedInPaths(paths, ing, h, ps, s) == TriedInPaths(paths, ing, h, ps, s')
  {
    if ps != [] {
      var n := |ps| - 1;
      AgreePaths(paths, ing, h, ps[..n], s, s');
      var t := TriedService(SyncPaths(paths, ing, h, ps[..n], s), ing, h, ps[n]);
      if t.Some? {
        assert t.value in TriedInPaths(paths, ing, h, ps, s);
      }
    }
  }

  lemma {:induction false} AgreeRules(v: Option<seq<HostPath>>, h: string, ing: Ingress, rules: seq<Rule>, s: Services, s': Services)
    requires AgreeOn(s, s', TriedInRules(v, h, ing, rules, s))
    ensures RunRules(v, h, ing, rules, s) == RunRules(v, h, ing, rules, s')
    ensures TriedInRules(v, h, ing, rules, s) == TriedInRules(v, h, ing, rules, s')
  {
    if rules != [] {
      var n := |rules| - 1;
      AgreeRules(v, h, ing, rules[..n], s, s');
      if RuleOn(rules[n], h) {
        AgreePaths(Content(RunRules(v, h, ing, rules[..n], s)), ing, h, rules[n].http.value, s, s');
      }
    }
  }

  /** A host changes only through the services it tried. */
  lemma {:induction false} AgreeList(v: Option<seq<HostPath>>, h: string, ings: seq<Ingress>, s: Services, s': Services)
    requires AgreeOn(s, s', TriedInList(v, h, ings, s))
    ensures RunList(v, h, ings, s) == RunList(v, h, ings, s')
    ensures TriedInList(v, h, ings, s) == TriedInList(v, h, ings, s')
  {
    if ings != [] {
      var n := |ings| - 1;
      AgreeList(v, h, ings[..n], s, s');
      AgreeRules(RunList(v, h, ings[..n], s), h, ings[n], ings[n].rules, s, s');
    }
  }

  // ---------------------------------------------------------------- partial sync equals full sync

  /** Every rule of an ingress in `cache` ties the ingress and the host: both dirty or both clean. */
  ghost predicate DirtyTogether(cache: map<string, Ingress>, dirtyIngs: set<string>, dirtyHosts: set<string>)
  {
    forall n, h :: n in cache && IngressOn(cache[n], h) ==> (n in dirtyIngs <==> h in dirtyHosts)
  }

  ghost predicate Unchanged(cache: map<string, Ingress>, cache': map<string, Ingress>, n: string)
  {
    n in cache && n in cache' && cache[n] == cache'[n]
  }

  /** An ingress of `cache` that is not the same in `other` is dirty, unless it has no rule to serve. */
  ghost predicate ChangedAreDirty(cache: map<string, Ingress>, other: map<string, Ingress>, dirtyIngs: set<string>)
  {
    forall n, h :: n in cache && IngressOn(cache[n], h) && !Unchanged(cache, other, n) ==> n in dirtyIngs
  }

  ghost predicate ServicesCleanOn(cache: map<string, Ingress>, s: Services, s': Services, dirtyHosts: set<string>)
  {
    forall h :: h !in dirtyHosts ==> AgreeOn(s, s', FullTried(cache, s, h))
  }

  /** The list a partial sync works on: the current version of what is dirty or added. */
  ghost predicate PartialListing(list: seq<Ingress>, cache: map<string, Ingress>, dirtyIngs: set<string>)
  {
    && SortedBy(list, IngressLess)
    && (forall x :: x in list ==> FullName(x) in cache && cache[FullName(x)] == x)
    && (forall x, h :: x in list && IngressOn(x, h) ==> FullName(x) in dirtyIngs)
    && (forall n :: n in cache && n in dirtyIngs ==> cache[n] in list)
  }

  ghost predicate DirtyClosure(cache: map<string, Ingress>, cache': map<string, Ingress>,
                               s: Services, s': Services, dirtyIngs: set<string>, dirtyHosts: set<string>)
  {
    && ValidCache(cache) && ValidCache(cache')
    && DirtyTogether(cache, dirtyIngs, dirtyHosts) && DirtyTogether(cache', dirtyIngs, dirtyHosts)
    && ChangedAreDirty(cache, cache', dirtyIngs) && ChangedAreDirty(cache', cache, dirtyIngs)
    && ServicesCleanOn(cache, s, s', dirtyHosts)
  }

  lemma CleanHostKept(cache: map<string, Ingress>, cache': map<string, Ingress>, s: Services, s': Services,
                      dirtyIngs: set<string>, dirtyHosts: set<string>, h: string)
    requires DirtyClosure(cache, cache', s, s', dirtyIngs, dirtyHosts) && h !in dirtyHosts
    ensures RunList(None, h, ListOf(cache.Values), s) == RunList(None, h, ListOf(cache'.Values), s')
    ensures FullTried(cache, s, h) == FullTried(cache', s', h)
  {
    var list, list' := ListOf(cache.Values), ListOf(cache'.Values);
    ValidCacheListing(cache);
    ValidCacheListing(cache');
    forall x | IngressOn(x, h) ensures x in list <==> x in list' {
      if x in list {
        var n :| n in cache && cache[n] == x;
        assert Unchanged(cache, cache', n);
        assert cache'[n] in cache'.Values;
      }
      if x in list' {
        var n :| n in cache' && cache'[n] == x;
        assert Unchanged(cache', cache, n);
        assert cache[n] in cache.Values;
      }
    }
    SameOnHost(list, list', h);
    AgreeList(None, h, list, s, s');
    RunListOnHost(None, h, list, s');
    RunListOnHost(None, h, list', s');
  }

  lemma DirtyHostRebuilt(cache: map<string, Ingress>, s: Services, list: seq<Ingress>,
                         dirtyIngs: set<string>, dirtyHosts: set<string>, h: string)
    requires ValidCache(cache) && DirtyTogether(cache, dirtyIngs, dirtyHosts)
    requires PartialListing(list, cache, dirtyIngs) && h in dirtyHosts
    ensures RunList(None, h, list, s) == RunList(None, h, ListOf(cache.Values), s)
    ensures FullTried(cache, s, h) == TriedInList(None, h, list, s)
  {
    var all := ListOf(cache.Values);
    ValidCacheListing(cache);
    forall x | IngressOn(x, h) ensures x in list <==> x in all {
      if x in list {
        assert cache[FullName(x)] in cache.Values;
      }
      if x in all {
        var n :| n in cache && cache[n] == x;
      }
    }
    SameOnHost(list, all, h);
    RunListOnHost(None, h, list, s);
    RunListOnHost(None, h, all, s);
  }

  lemma CleanHostUntouched(cache: map<string, Ingress>, v: Option<seq<HostPath>>, s: Services, list: seq<Ingress>,
                           dirtyIngs: set<string>, dirtyHosts: set<string>, h: string)
    requires DirtyTogether(cache, dirtyIngs, dirtyHosts)
    requires PartialListing(list, cache, dirtyIngs) && h !in dirtyHosts
    ensures RunList(v, h, list, s) == v
    ensures TriedInList(v, h, list, s) == {}
  {
    forall x ensures x !in OnHost(list, h) {
      OnHostMembers(list, h, x);
    }
    HasMember(OnHost(list, h));
    RunListOnHost(v, h, list, s);
  }

  /**
   Removing the dirty hosts and replaying the dirty and added ingress resources gives
   exactly the hosts of a full sync of the new state.
   */
  lemma PartialEqualsFull(cache: map<string, Ingress>, cache': map<string, Ingress>, s: Services, s': Services,
                          dirtyIngs: set<string>, dirtyHosts: set<string>, list: seq<Ingress>)
    requires DirtyClosure(cache, cache', s, s', dirtyIngs, dirtyHosts)
    requires PartialListing(list, cache', dirtyIngs)
    ensures SyncList(FullHosts(cache, s) - dirtyHosts, list, s') == FullHosts(cache', s')
  {
    var start := FullHosts(cache, s) - dirtyHosts;
    var result, full := SyncList(start, list, s'), FullHosts(cache', s');
    forall h ensures View(result, h) == View(full, h) {
      ViewOfList(start, h, list, s');
      ViewOfList(map[], h, ListOf(cache'.Values), s');
      if h in dirtyHosts {
        DirtyHostRebuilt(cache', s', list, dirtyIngs, dirtyHosts, h);
      } else {
        ViewOfList(map[], h, ListOf(cache.Values), s);
        CleanHostKept(cache, cache', s, s', dirtyIngs, dirtyHosts, h);
        CleanHostUntouched(cache', View(start, h), s', list, dirtyIngs, dirtyHosts, h);
      }
    }
    SameViews(result, full);
  }

  lemma SameViews(a: HostMap, b: HostMap)
    requires forall h :: View(a, h) == View(b, h)
    ensures a == b
  {
    forall h ensures (h in a <==> h in b) && (h in a ==> a[h] == b[h]) {
      assert View(a, h) == View(b, h);
    }
  }

  // ---------------------------------------------------------------- which hosts are served

  /** Some ingress of the cluster has a rule on the host. */
  ghost predicate HasHost(cache: map<string, Ingress>, h: string)
  {
    exists n :: n in cache && IngressOn(cache[n], h)
  }

  lemma {:induction false} RunRulesServes(v: Option<seq<HostPath>>, h: string, ing: Ingress, rules: seq<Rule>, s: Services)
    ensures v.Some? ==> RunRules(v, h, ing, rules, s).Some?
    ensures (exists i :: 0 <= i < |rules| && RuleOn(rules[i], h)) ==> RunRules(v, h, ing, rules, s).Some?
  {
    if rules != [] {
      RunRulesServes(v, h, ing, rules[..|rules| - 1], s);
    }
  }

  lemma {:induction false} RunListServes(v: Option<seq<HostPath>>, h: string, ings: seq<Ingress>, s: Services, x: Ingress)
    requires x in ings && IngressOn(x, h)
    ensures RunList(v, h, ings, s).Some?
  {
    var n := |ings| - 1;
    RunRulesServes(RunList(v, h, ings[..n], s), h, ings[n], ings[n].rules, s);
    if x != ings[n] {
      assert ings == ings[..n] + [ings[n]];
      RunListServes(v, h, ings[..n], s, x);
    }
  }

  /** A sync of a list serves exactly the hosts of its rules. */
  lemma ListServes(ings: seq<Ingress>, s: Services, h: string)
    ensures h in SyncList(map[], ings, s) <==> exists x :: x in ings && IngressOn(x, h)
  {
    ViewOfList(map[], h, ings, s);
    if x :| x in ings && IngressOn(x, h) {
      RunListServes(None, h, ings, s, x);
    } else {
      RunListOnHost(None, h, ings, s);
      HasMember(OnHost(ings, h));
      forall x ensures x !in OnHost(ings, h) {
        OnHostMembers(ings, h, x);
      }
    }
  }

  lemma FullServes(cache: map<string, Ingress>, s: Services, h: string)
    requires ValidCache(cache)
    ensures h in FullHosts(cache, s) <==> HasHost(cache, h)
  {
    ValidCacheListing(cache);
    ListServes(ListOf(cache.Values), s, h);
    forall n | n in cache ensures cache[n] in ListOf(cache.Values) {
      assert cache[n] in cache.Values;
    }
  }
}
