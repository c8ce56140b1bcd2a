/**
 What a full sync builds, said from the declarations of the ingress resources alone: which paths a host lists, where they
 lead and in which order.
 */
module SyncSpec {
  import opened Model
  import opened Ordering
  import opened SyncModel

  // ---------------------------------------------------------------- declarations

  /** A path as an ingress declares it. */
  datatype Decl = Decl(ing: Ingress, path: IngressPath)

  /** The rule is for the host; without a host name it is for the default one. */
  ghost predicate IsFor(rule: Rule, h: string)
  {
    if rule.host == "" then h == "<default>" else rule.host == h
  }

  ghost function InPaths(ing: Ingress, ps: seq<IngressPath>): seq<Decl>
  {
    seq(|ps|, i requires 0 <= i < |ps| => Decl(ing, ps[i]))
  }

  ghost function InRules(ing: Ingress, rules: seq<Rule>, h: string): seq<Decl>
  {
    if rules == [] then []
    else
      var n := |rules| - 1;
      InRules(ing, rules[..n], h) +
      (if rules[n].http.Some? && IsFor(rules[n], h) then InPaths(ing, rules[n].http.value) else [])
  }

  /** The declarations of a host, in the order of ingresses, rules and paths. */
  ghost function InList(ings: seq<Ingress>, h: string): seq<Decl>
  {
    if ings == [] then []
    else
      var n := |ings| - 1;
      InList(ings[..n], h) + InRules(ings[n], ings[n].rules, h)
  }

  ghost function Uri(d: Decl): string
  {
    if d.path.path == "" then "/" else d.path.path
  }

  /** The link that is declared. */
  ghost function Declared(d: Decl, h: string): PathLink
  {
    PathLink(h, Uri(d), d.path.match_, d.ing.headers)
  }

  /** The link that is listed: redirects lose the header match. */
  ghost function Written(d: Decl, h: string): PathLink
  {
    PathLink(h, Uri(d), d.path.match_, if d.ing.redirectTo == "" then d.ing.headers else [])
  }

  /** Where the declaration leads, if it is usable: a redirect, or a service that resolves. */
  ghost function Outcome(d: Decl, services: Services): Option<Target>
  {
    if d.ing.redirectTo != "" then Some(RedirTo(d.ing.redirectTo))
    else if d.path.service.Some? && d.path.service.value in services then Some(ToBackend(services[d.path.service.value]))
    else None
  }

  ghost predicate IsPassthroughRoot(d: Decl)
  {
    d.ing.sslPassthrough && Uri(d) == "/"
  }

  /**
   With `e` listed, `d` is a redeclaration: the same link is listed or, for the root path of a host with SSL passthrough,
   any root path without header match.
   */
  ghost predicate Blocks(e: Decl, d: Decl, h: string)
  {
    if IsPassthroughRoot(d) then Uri(e) == "/" && Written(e, h).headers == []
    else Written(e, h) == Declared(d, h)
  }

  /** The declaration is listed: it is usable and none of those listed before it blocks it. */
  ghost predicate Accepted(ds: seq<Decl>, h: string, services: Services, k: nat)
    requires k < |ds|
    decreases k
  {
    && Outcome(ds[k], services).Some?
    && forall j :: 0 <= j < k && Accepted(ds, h, services, j) ==> !Blocks(ds[j], ds[k], h)
  }

  /**
   The paths are those of the accepted declarations, whose positions are `acc`: each of them once, with its link and target,
   by descending path, and equal paths by arrival.
   */
  ghost predicate Lists(paths: seq<HostPath>, ds: seq<Decl>, h: string, services: Services, acc: seq<nat>)
  {
    && |acc| == |paths|
    && (forall k :: 0 <= k < |acc| ==> acc[k] < |ds|)
    && (forall j, k :: 0 <= j < k < |acc| ==> acc[j] < acc[k])
    && (forall k :: 0 <= k < |ds| ==> (k in acc <==> Accepted(ds, h, services, k)))
    && (forall i :: 0 <= i < |paths| ==> IsPathOf(paths[i], ds, h, services, acc))
    && (forall k :: 0 <= k < |acc| ==> HasOrder(paths, k))
    && (forall i, j :: 0 <= i < j < |paths| ==> ComesBefore(paths[i], paths[j]) && paths[i].order != paths[j].order)
  }

  ghost predicate IsPathOf(p: HostPath, ds: seq<Decl>, h: string, services: Services, acc: seq<nat>)
    requires forall k :: 0 <= k < |acc| ==> acc[k] < |ds|
  {
    && p.order < |acc|
    && p.link == Written(ds[acc[p.order]], h) && Some(p.target) == Outcome(ds[acc[p.order]], services)
  }

  ghost predicate HasOrder(paths: seq<HostPath>, k: nat)
  {
    exists i :: 0 <= i < |paths| && paths[i].order == k
  }

  ghost predicate ComesBefore(p: HostPath, q: HostPath)
  {
    (p.link.path != q.link.path && LexLe(q.link.path, p.link.path)) || (p.link.path == q.link.path && p.order < q.order)
  }

  // ---------------------------------------------------------------- one declaration more

  lemma HostPathOrder()
    ensures TotalPreorder(HostPathLe)
  {
    forall p, q ensures HostPathLe(p, q) || HostPathLe(q, p) {
      LexTotal(p.link.path, q.link.path);
    }
    forall p, q, r | HostPathLe(p, q) && HostPathLe(q, r) ensures HostPathLe(p, r) {
      if p.link.path != q.link.path && q.link.path != r.link.path {
        LexTransitive(r.link.path, q.link.path, p.link.path);
        if p.link.path == r.link.path {
          LexAntisymmetric(p.link.path, q.link.path);
        }
      }
    }
  }

  lemma AddedComesBefore(paths: seq<HostPath>, p: HostPath, r: seq<HostPath>)
    requires forall i :: 0 <= i < |paths| ==> paths[i].order < p.order
    requires multiset(r) == multiset(paths + [p]) && SortedBy(r, HostPathLe)
    requires forall i, j :: 0 <= i < j < |paths| ==> paths[i].order != paths[j].order
    ensures forall i, j :: 0 <= i < j < |r| ==> ComesBefore(r[i], r[j]) && r[i].order != r[j].order
  {
    var s := paths + [p];
    forall i, j | 0 <= i < j < |r| ensures ComesBefore(r[i], r[j]) && r[i].order != r[j].order {
      var k, l := TwoOf(s, r, i, j);
      assert s[k].order != s[l].order;
      assert HostPathLe(r[i], r[j]);
    }
  }

  /** The last declaration is a redeclaration exactly if an accepted one blocks it. */
  lemma RedeclaredMeans(paths: seq<HostPath>, ds: seq<Decl>, h: string, services: Services, acc: seq<nat>, d: Decl)
    requires Lists(paths, ds, h, services, acc)
    ensures Redeclared(paths, d.ing, LinkOf(d.ing, h, d.path)) <==>
              exists j :: 0 <= j < |ds| && Accepted(ds, h, services, j) && Blocks(ds[j], d, h)
  {
    var link := LinkOf(d.ing, h, d.path);
    assert link == Declared(d, h);
    if Redeclared(paths, d.ing, link) {
      var i :| 0 <= i < |paths| &&
        (if IsPassthroughRoot(d) then paths[i].link.path == "/" && paths[i].link.headers == [] else paths[i].link == link);
      var j := acc[paths[i].order];
      assert IsPathOf(paths[i], ds, h, services, acc);
      assert j in acc;
      assert Accepted(ds, h, services, j) && Blocks(ds[j], d, h);
    }
    if j :| 0 <= j < |ds| && Accepted(ds, h, services, j) && Blocks(ds[j], d, h) {
      assert j in acc;
      var k :| 0 <= k < |acc| && acc[k] == j;
      assert HasOrder(paths, k);
      var i :| 0 <= i < |paths| && paths[i].order == k;
      assert IsPathOf(paths[i], ds, h, services, acc);
      assert if IsPassthroughRoot(d) then paths[i].link.path == "/" && paths[i].link.headers == [] else paths[i].link == link;
    }
  }

  /** Declarations that come later do not matter. */
  lemma {:induction false} AcceptedBefore(ds: seq<Decl>, d: Decl, h: string, services: Services, k: nat)
    requires k < |ds|
    ensures Accepted(ds + [d], h, services, k) == Accepted(ds, h, services, k)
    decreases k
  {
    forall j | 0 <= j < k ensures Accepted(ds + [d], h, services, j) == Accepted(ds, h, services, j) {
      AcceptedBefore(ds, d, h, services, j);
    }
  }

  lemma AllAcceptedBefore(ds: seq<Decl>, d: Decl, h: string, services: Services)
    ensures forall k :: 0 <= k < |ds| ==> Accepted(ds + [d], h, services, k) == Accepted(ds, h, services, k)
    ensures Accepted(ds + [d], h, services, |ds|) <==>
              Outcome(d, services).Some? && !exists j :: 0 <= j < |ds| && Accepted(ds, h, services, j) && Blocks(ds[j], d, h)
  {
    forall k | 0 <= k < |ds| ensures Accepted(ds + [d], h, services, k) == Accepted(ds, h, services, k) {
      AcceptedBefore(ds, d, h, services, k);
    }
  }

  /** A declaration that is not accepted changes nothing. */
  lemma SkippedLists(paths: seq<HostPath>, ds: seq<Decl>, h: string, services: Services, acc: seq<nat>, d: Decl)
    requires Lists(paths, ds, h, services, acc) && !Accepted(ds + [d], h, services, |ds|)
    ensures Lists(paths, ds + [d], h, services, acc)
  {
    hide Accepted;
    AllAcceptedBefore(ds, d, h, services);
    forall i | 0 <= i < |paths| ensures IsPathOf(paths[i], ds + [d], h, services, acc) {
      assert IsPathOf(paths[i], ds, h, services, acc);
    }
    assert |ds| !in acc;
  }

  /** An accepted one is listed behind the others of its path. */
  lemma AddedLists(paths: seq<HostPath>, ds: seq<Decl>, h: string, services: Services, acc: seq<nat>, d: Decl, p: HostPath,
                   r: seq<HostPath>)
    requires Lists(paths, ds, h, services, acc) && Accepted(ds + [d], h, services, |ds|)
    requires p.link == Written(d, h) && Some(p.target) == Outcome(d, services) && p.order == |paths|
    requires multiset(r) == multiset(paths + [p]) && SortedBy(r, HostPathLe)
    ensures Lists(r, ds + [d], h, services, acc + [|ds|])
  {
    hide Accepted, HostPathLe, Written, Outcome;
    var ds', acc', s := ds + [d], acc + [|ds|], paths + [p];
    AllAcceptedBefore(ds, d, h, services);
    AddedComesBefore(paths, p, r);
    RearrangedLength(s, r);
    assert forall k :: k in acc' <==> k in acc || k == |ds|;
    forall i | 0 <= i < |r| ensures IsPathOf(r[i], ds', h, services, acc') {
      assert r[i] in multiset(s);
      if r[i] != p {
        var k :| 0 <= k < |paths| && paths[k] == r[i];
        assert IsPathOf(paths[k], ds, h, services, acc);
      }
    }
    forall k | 0 <= k < |acc'| ensures HasOrder(r, k) {
      AddedHasOrder(paths, p, r, k);
    }
  }

  lemma AddedHasOrder(paths: seq<HostPath>, p: HostPath, r: seq<HostPath>, k: nat)
    requires multiset(r) == multiset(paths + [p]) && (HasOrder(paths, k) || p.order == k)
    ensures HasOrder(r, k)
  {
    var s := paths + [p];
    var i := |paths|;
    if HasOrder(paths, k) {
      i :| 0 <= i < |paths| && paths[i].order == k;
    }
    assert s[i].order == k && s[i] in multiset(r);
    var j :| 0 <= j < |r| && r[j] == s[i];
  }

  lemma NextDeclaration(paths: seq<HostPath>, ds: seq<Decl>, h: string, services: Services, acc: seq<nat>, d: Decl)
      returns (acc': seq<nat>)
    requires Lists(paths, ds, h, services, acc)
    ensures Lists(SyncPath(paths, d.ing, h, d.path, services), ds + [d], h, services, acc')
  {
    hide Lists, Accepted, Blocks, Redeclared, Sort;
    RedeclaredMeans(paths, ds, h, services, acc, d);
    AllAcceptedBefore(ds, d, h, services);
    if Accepted(ds + [d], h, services, |ds|) {
      var p := HostPath(Written(d, h), Outcome(d, services).value, |paths|);
      HostPathOrder();
      SortSorted(paths + [p], HostPathLe);
      acc' := acc + [|ds|];
      AddedLists(paths, ds, h, services, acc, d, p, Sort(paths + [p], HostPathLe));
    } else {
      acc' := acc;
      SkippedLists(paths, ds, h, services, acc, d);
    }
  }

  // ---------------------------------------------------------------- all of them

  lemma {:induction false} PathsListed(paths: seq<HostPath>, ds: seq<Decl>, h: string, services: Services, acc: seq<nat>,
                                       ing: Ingress, ps: seq<IngressPath>) returns (acc': seq<nat>)
    requires Lists(paths, ds, h, services, acc)
    ensures Lists(SyncPaths(paths, ing, h, ps, services), ds + InPaths(ing, ps), h, services, acc')
  {
    hide Lists, SyncPath;
    acc' := acc;
    if ps == [] {
      assert ds + InPaths(ing, ps) == ds;
    } else {
      var n := |ps| - 1;
      var ds' := ds + InPaths(ing, ps[..n]);
      acc' := PathsListed(paths, ds, h, services, acc, ing, ps[..n]);
      acc' := NextDeclaration(SyncPaths(paths, ing, h, ps[..n], services), ds', h, services, acc', Decl(ing, ps[n]));
      assert ds + InPaths(ing, ps) == ds' + [Decl(ing, ps[n])];
    }
  }

  lemma {:induction false} RulesListed(v: Option<seq<HostPath>>, ds: seq<Decl>, h: string, services: Services, acc: seq<nat>,
                                       ing: Ingress, rules: seq<Rule>) returns (acc': seq<nat>)
    requires Lists(Content(v), ds, h, services, acc)
    ensures Lists(Content(RunRules(v, h, ing, rules, services)), ds + InRules(ing, rules, h), h, services, acc')
  {
    hide Lists, SyncPaths, InPaths;
    acc' := acc;
    if rules == [] {
      assert ds + InRules(ing, rules, h) == ds;
    } else {
      var n := |rules| - 1;
      var ds' := ds + InRules(ing, rules[..n], h);
      acc' := RulesListed(v, ds, h, services, acc, ing, rules[..n]);
      if RuleOn(rules[n], h) {
        var ps := rules[n].http.value;
        acc' := PathsListed(Content(RunRules(v, h, ing, rules[..n], services)), ds', h, services, acc', ing, ps);
        assert ds + InRules(ing, rules, h) == ds' + InPaths(ing, ps);
      } else {
        assert ds + InRules(ing, rules, h) == ds';
      }
    }
  }

  lemma {:induction false} AllListed(h: string, services: Services, ings: seq<Ingress>) returns (acc: seq<nat>)
    ensures Lists(Content(RunList(None, h, ings, services)), InList(ings, h), h, services, acc)
  {
    acc := [];
    if ings != [] {
      hide Lists, RunRules, InRules;
      var n := |ings| - 1;
      acc := AllListed(h, services, ings[..n]);
      acc := RulesListed(RunList(None, h, ings[..n], services), InList(ings[..n], h), h, services, acc, ings[n], ings[n].rules);
    }
  }

  /** The list is in the order of creation, and of namespace and name for those created together. */
  ghost predicate InSyncOrder(list: seq<Ingress>)
  {
    forall i, j :: 0 <= i < j < |list| ==>
                     || list[i].created < list[j].created
                     || (list[i].created == list[j].created && NameOf(list[i]) != NameOf(list[j]) && LexLe(NameOf(list[i]), NameOf(list[j])))
  }

  ghost function NameOf(ing: Ingress): string
  {
    ing.namespace + "/" + ing.name
  }

  /**
   A full sync: the ingress resources are taken in order, a host is there if a rule is for it, and its paths are those of the
   accepted declarations.
   */
  lemma FullSyncBuilds(cache: map<string, Ingress>, services: Services, h: string) returns (list: seq<Ingress>, acc: seq<nat>)
    requires forall n :: n in cache ==> NameOf(cache[n]) == n
    ensures InSyncOrder(list) && forall x :: x in list <==> x in cache.Values
    ensures h in FullHosts(cache, services) <==>
              exists n, r :: n in cache && 0 <= r < |cache[n].rules| && cache[n].rules[r].http.Some? && IsFor(cache[n].rules[r], h)
    ensures h in FullHosts(cache, services) ==> Lists(FullHosts(cache, services)[h], InList(list, h), h, services, acc)
  {
    hide Lists, Insert, LexLe;
    list := ListOf(cache.Values);
    ValidCacheListing(cache);
    forall i, j | 0 <= i < j < |list|
      ensures list[i].created < list[j].created
              || (list[i].created == list[j].created && NameOf(list[i]) != NameOf(list[j]) && LexLe(NameOf(list[i]), NameOf(list[j])))
    {
      assert IngressLess(list[i], list[j]);
    }
    acc := AllListed(h, services, list);
    ViewOfList(map[], h, list, services);
    FullServes(cache, services, h);
    forall n | n in cache ensures IngressOn(cache[n], h) <==>
      exists r :: 0 <= r < |cache[n].rules| && cache[n].rules[r].http.Some? && IsFor(cache[n].rules[r], h)
    {
      forall r | 0 <= r < |cache[n].rules|
        ensures RuleOn(cache[n].rules[r], h) <==> cache[n].rules[r].http.Some? && IsFor(cache[n].rules[r], h)
      {
      }
    }
  }

  // ---------------------------------------------------------------- the first writer wins

  /** Ingress resources without redirect and without SSL passthrough. */
  ghost predicate IsPlain(ing: Ingress)
  {
    ing.redirectTo == "" && !ing.sslPassthrough
  }

  ghost predicate AllPlain(ds: seq<Decl>)
  {
    forall k :: 0 <= k < |ds| ==> IsPlain(ds[k].ing)
  }

  /** The first declaration of its link whose service resolves. */
  ghost predicate FirstOfLink(ds: seq<Decl>, h: string, services: Services, k: nat)
    requires k < |ds|
  {
    && Outcome(ds[k], services).Some?
    && forall j :: 0 <= j < k && Outcome(ds[j], services).Some? ==> Declared(ds[j], h) != Declared(ds[k], h)
  }

  lemma {:induction false} HasFirst(ds: seq<Decl>, h: string, services: Services, k: nat) returns (j: nat)
    requires k < |ds| && Outcome(ds[k], services).Some?
    ensures j <= k && FirstOfLink(ds, h, services, j) && Declared(ds[j], h) == Declared(ds[k], h)
    decreases k
  {
    j := k;
    if !FirstOfLink(ds, h, services, k) {
      var i :| 0 <= i < k && Outcome(ds[i], services).Some? && Declared(ds[i], h) == Declared(ds[k], h);
      j := HasFirst(ds, h, services, i);
    }
  }

  lemma {:induction false} AcceptedIsFirst(ds: seq<Decl>, h: string, services: Services, k: nat)
    requires AllPlain(ds) && k < |ds|
    ensures Accepted(ds, h, services, k) <==> FirstOfLink(ds, h, services, k)
    decreases k
  {
    forall j | 0 <= j < k ensures Accepted(ds, h, services, j) <==> FirstOfLink(ds, h, services, j) {
      AcceptedIsFirst(ds, h, services, j);
    }
    if Accepted(ds, h, services, k) {
      var j := HasFirst(ds, h, services, k);
      assert j < k ==> Blocks(ds[j], ds[k], h);
    }
  }

  lemma {:induction false} InRulesOf(ing: Ingress, rules: seq<Rule>, h: string, d: Decl)
    ensures d in InRules(ing, rules, h) ==> d.ing == ing
  {
    if rules != [] {
      InRulesOf(ing, rules[..|rules| - 1], h, d);
    }
  }

  lemma {:induction false} InListOf(ings: seq<Ingress>, h: string, d: Decl)
    ensures d in InList(ings, h) ==> d.ing in ings
  {
    if ings != [] {
      var n := |ings| - 1;
      InListOf(ings[..n], h, d);
      InRulesOf(ings[n], ings[n].rules, h, d);
    }
  }

  ghost predicate ListsLink(paths: seq<HostPath>, link: PathLink)
  {
    exists i :: 0 <= i < |paths| && paths[i].link == link
  }

  ghost predicate DeclaresLink(ds: seq<Decl>, h: string, services: Services, link: PathLink)
  {
    exists k :: 0 <= k < |ds| && Declared(ds[k], h) == link && Outcome(ds[k], services).Some?
  }

  ghost predicate LeadsAsFirst(p: HostPath, ds: seq<Decl>, h: string, services: Services)
  {
    exists k :: 0 <= k < |ds| && FirstOfLink(ds, h, services, k) && p.link == Declared(ds[k], h) && Some(p.target) == Outcome(ds[k], services)
  }

  /**
   Without redirects and passthrough: the links listed are those declared with a service that resolves, each of them once,
   with the backend of its first such declaration, by descending path.
   */
  lemma FirstWriterWins(cache: map<string, Ingress>, services: Services, h: string) returns (list: seq<Ingress>)
    requires forall n :: n in cache ==> NameOf(cache[n]) == n && IsPlain(cache[n])
    requires h in FullHosts(cache, services)
    ensures InSyncOrder(list) && forall x :: x in list <==> x in cache.Values
    ensures var paths, ds := FullHosts(cache, services)[h], InList(list, h);
            && (forall link :: ListsLink(paths, link) <==> DeclaresLink(ds, h, services, link))
            && (forall i, j :: 0 <= i < j < |paths| ==> paths[i].link != paths[j].link)
            && (forall i :: 0 <= i < |paths| ==> LeadsAsFirst(paths[i], ds, h, services))
            && (forall i, j :: 0 <= i < j < |paths| ==> LexLe(paths[j].link.path, paths[i].link.path))
  {
    hide FullHosts, Accepted, LexLe, InList;
    var acc;
    list, acc := FullSyncBuilds(cache, services, h);
    var ds := InList(list, h);
    forall k | 0 <= k < |ds| ensures IsPlain(ds[k].ing) {
      InListOf(list, h, ds[k]);
      assert ds[k].ing in cache.Values;
    }
    PlainLists(FullHosts(cache, services)[h], ds, h, services, acc);
  }

  lemma PlainLists(paths: seq<HostPath>, ds: seq<Decl>, h: string, services: Services, acc: seq<nat>)
    requires Lists(paths, ds, h, services, acc) && AllPlain(ds)
    ensures forall link :: ListsLink(paths, link) <==> DeclaresLink(ds, h, services, link)
    ensures forall i, j :: 0 <= i < j < |paths| ==> paths[i].link != paths[j].link
    ensures forall i :: 0 <= i < |paths| ==> LeadsAsFirst(paths[i], ds, h, services)
    ensures forall i, j :: 0 <= i < j < |paths| ==> LexLe(paths[j].link.path, paths[i].link.path)
  {
    hide Accepted, LexLe;
    forall k | 0 <= k < |ds| ensures Accepted(ds, h, services, k) <==> FirstOfLink(ds, h, services, k) {
      AcceptedIsFirst(ds, h, services, k);
    }
    forall i | 0 <= i < |paths|
      ensures acc[paths[i].order] < |ds| && FirstOfLink(ds, h, services, acc[paths[i].order])
      ensures paths[i].link == Declared(ds[acc[paths[i].order]], h) && LeadsAsFirst(paths[i], ds, h, services)
    {
      assert IsPathOf(paths[i], ds, h, services, acc);
      assert acc[paths[i].order] in acc;
    }
    forall i, j | 0 <= i < j < |paths| ensures paths[i].link != paths[j].link {
      var k, m := acc[paths[i].order], acc[paths[j].order];
      assert k != m;
    }
    forall i, j | 0 <= i < j < |paths| ensures LexLe(paths[j].link.path, paths[i].link.path) {
      assert ComesBefore(paths[i], paths[j]);
      LexReflexive(paths[i].link.path);
    }
    forall link ensures ListsLink(paths, link) <==> DeclaresLink(ds, h, services, link) {
      if DeclaresLink(ds, h, services, link) {
        DeclaredIsListed(paths, ds, h, services, acc, link);
      }
    }
  }

  lemma DeclaredIsListed(paths: seq<HostPath>, ds: seq<Decl>, h: string, services: Services, acc: seq<nat>, link: PathLink)
    requires Lists(paths, ds, h, services, acc) && AllPlain(ds) && DeclaresLink(ds, h, services, link)
    ensures ListsLink(paths, link)
  {
    hide Accepted, ComesBefore;
    var k :| 0 <= k < |ds| && Declared(ds[k], h) == link && Outcome(ds[k], services).Some?;
    var j := HasFirst(ds, h, services, k);
    AcceptedIsFirst(ds, h, services, j);
    assert j in acc;
    var o :| 0 <= o < |acc| && acc[o] == j;
    assert HasOrder(paths, o);
    var i :| 0 <= i < |paths| && paths[i].order == o;
    assert IsPathOf(paths[i], ds, h, services, acc);
  }

  // ---------------------------------------------------------------- redirects and passthrough

  /**
   The test for redeclarations looks for another link than the one that is listed: a redirect with a header match, which is
   listed without it, or a root path with passthrough and a header match.
   */
  ghost predicate Evades(d: Decl)
  {
    d.ing.headers != [] && (d.ing.redirectTo != "" || IsPassthroughRoot(d))
  }

  /** A link is listed twice if and only if two accepted declarations write it, and the later one evades the test. */
  lemma ListedTwiceIff(paths: seq<HostPath>, ds: seq<Decl>, h: string, services: Services, acc: seq<nat>)
    requires Lists(paths, ds, h, services, acc)
    ensures (exists i, j :: 0 <= i < j < |paths| && paths[i].link == paths[j].link) <==>
            exists j, k :: 0 <= j < k < |ds| && Accepted(ds, h, services, j) && Accepted(ds, h, services, k)
                           && Written(ds[j], h) == Written(ds[k], h) && Evades(ds[k])
  {
    if i, j :| 0 <= i < j < |paths| && paths[i].link == paths[j].link {
      assert IsPathOf(paths[i], ds, h, services, acc) && IsPathOf(paths[j], ds, h, services, acc);
      var k, m := acc[paths[i].order], acc[paths[j].order];
      assert k in acc && m in acc && k != m;
      assert Accepted(ds, h, services, k) && Accepted(ds, h, services, m);
      SameLinkEvades(ds, h, services, if k < m then k else m, if k < m then m else k);
    }
    if j, k :| 0 <= j < k < |ds| && Accepted(ds, h, services, j) && Accepted(ds, h, services, k)
               && Written(ds[j], h) == Written(ds[k], h) && Evades(ds[k])
    {
      var i := ListedAt(paths, ds, h, services, acc, j);
      var m := ListedAt(paths, ds, h, services, acc, k);
      assert i != m;
      assert paths[i].link == paths[m].link;
    }
  }

  lemma SameLinkEvades(ds: seq<Decl>, h: string, services: Services, j: nat, k: nat)
    requires j < k < |ds| && Accepted(ds, h, services, j) && Accepted(ds, h, services, k)
    requires Written(ds[j], h) == Written(ds[k], h)
    ensures Evades(ds[k])
  {
    assert !Blocks(ds[j], ds[k], h);
  }

  lemma ListedAt(paths: seq<HostPath>, ds: seq<Decl>, h: string, services: Services, acc: seq<nat>, k: nat) returns (i: nat)
    requires Lists(paths, ds, h, services, acc) && k < |ds| && Accepted(ds, h, services, k)
    ensures i < |paths| && acc[paths[i].order] == k && paths[i].link == Written(ds[k], h)
    ensures Some(paths[i].target) == Outcome(ds[k], services)
  {
    hide Accepted, ComesBefore;
    assert k in acc;
    var o :| 0 <= o < |acc| && acc[o] == k;
    assert HasOrder(paths, o);
    i :| 0 <= i < |paths| && paths[i].order == o;
    assert IsPathOf(paths[i], ds, h, services, acc);
  }

  /** An ingress that redirects a path with a header match, and declares it twice. */
  function Repeating(): Ingress
  {
    var p := IngressPath("/app", Prefix, None);
    Ingress("ns", "a", 0, false, [HTTPMatch("x", "y", false)], "https://h/", [Rule("h", Some([p, p]))])
  }

  lemma OnlyOne(list: seq<Ingress>, x: Ingress)
    requires InSyncOrder(list) && forall y :: y in list <==> y == x
    ensures list == [x]
  {
    assert x in list;
    forall i, j | 0 <= i < j < |list| ensures list[i] != list[j] {
      assert NameOf(list[i]) != NameOf(list[j]) || list[i].created < list[j].created;
    }
    assert |list| > 1 ==> list[0] != list[1];
    assert forall i :: 0 <= i < |list| ==> list[i] in list;
  }

  lemma RepeatedDeclarations(services: Services) returns (d: Decl)
    ensures InList([Repeating()], "h") == [d, d]
    ensures Accepted([d, d], "h", services, 0) && Accepted([d, d], "h", services, 1) && Evades(d)
  {
    var x := Repeating();
    d := Decl(x, IngressPath("/app", Prefix, None));
    assert InPaths(x, x.rules[0].http.value) == [d, d];
    assert x.rules[..0] == [] && InRules(x, x.rules, "h") == [d, d];
    assert [x][..0] == [] && InList([x], "h") == [d, d];
  }

  lemma OneIngressServes(x: Ingress, h: string, r: nat, services: Services) returns (acc: seq<nat>)
    requires r < |x.rules| && x.rules[r].http.Some? && IsFor(x.rules[r], h)
    ensures h in FullHosts(map[NameOf(x) := x], services)
    ensures Lists(FullHosts(map[NameOf(x) := x], services)[h], InList([x], h), h, services, acc)
  {
    hide FullHosts, Lists, InList, IsFor;
    var cache := map[NameOf(x) := x];
    var list;
    list, acc := FullSyncBuilds(cache, services, h);
    assert cache[NameOf(x)] == x;
    assert cache.Values == {x};
    OnlyOne(list, x);
    assert NameOf(x) in cache && cache[NameOf(x)].rules[r].http.Some? && IsFor(cache[NameOf(x)].rules[r], h);
  }

  /** A full sync of that ingress alone lists the path twice. */
  lemma RedirectListedTwice(services: Services)
    ensures var hosts := FullHosts(map[NameOf(Repeating()) := Repeating()], services);
            "h" in hosts && exists i, j :: 0 <= i < j < |hosts["h"]| && hosts["h"][i].link == hosts["h"][j].link
  {
    hide FullHosts, Lists, InList, Accepted, Evades;
    var d := RepeatedDeclarations(services);
    var acc := OneIngressServes(Repeating(), "h", 0, services);
    var ds := [d, d];
    ListedTwiceIff(FullHosts(map[NameOf(Repeating()) := Repeating()], services)["h"], ds, "h", services, acc);
    assert Written(ds[0], "h") == Written(ds[1], "h") && Evades(ds[1]);
  }
}
