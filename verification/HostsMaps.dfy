/**
 A host map: `addTarget` collects its entries, `rebuildMatchFiles` splits them over an
 ordered list of match files.
 */
module HostsMaps {
  import opened Model
  import opened Ordering
  import opened PathPrecedence
  import opened MatchPlacement
  import opened MatchAssembly
  import opened MatchLookup
  import opened MatchBuild

  /** What addTarget establishes about an entry. */
  predicate EntryOk(e: Entry)
  {
    e.key == BuildMapKey(e.match_, e.hostname, e.path) && (e.match_ == Begin ==> Lower(e.path) == e.path)
  }

  /** The same string with its upper-case letters in lower case. */
  ghost predicate IsLowerOf(s: string, r: string)
  {
    && |r| == |s|
    && forall i :: 0 <= i < |s| ==> if 'A' <= s[i] <= 'Z' then 'a' <= r[i] <= 'z' && r[i] - 'a' == s[i] - 'A' else r[i] == s[i]
  }

  /**
   The key is the host name and the path with a separator between them, or the one that is not empty. In a regex the end of
   the host name is followed by anything but a slash, unless it is marked.
   */
  ghost predicate IsKeyOf(m: MatchType, hostname: string, path: string, key: string)
  {
    if hostname == "" || path == "" then key == hostname + path
    else if m != Regex then key == hostname + "#" + path
    else if hostname[|hostname| - 1] != '$' then key == hostname + "[^/]*#" + path
    else if hostname == "$" then key == path
    else key == hostname[..|hostname| - 1] + "#" + path
  }

  lemma LowerIs(s: string)
    ensures IsLowerOf(s, Lower(s))
  {
  }

  lemma KeyIs(m: MatchType, hostname: string, path: string)
    ensures IsKeyOf(m, hostname, path, BuildMapKey(m, hostname, path))
  {
  }

  lemma LowerTwice(s: string)
    ensures Lower(Lower(s)) == Lower(s)
  {
  }

  // ---------------------------------------------------------------- the order of match types

  const DEFAULT_ORDER := [Exact, Prefix, Begin, Regex]

  /** The configured names are the four types, each once. A name that is no type reads as None. */
  predicate IsPermutation(configured: seq<Option<MatchType>>)
  {
    && (forall i :: 0 <= i < |configured| ==> configured[i].Some?)
    && (forall i, j :: 0 <= i < j < |configured| ==> configured[i] != configured[j])
    && (forall m: MatchType :: Some(m) in configured)
  }

  /** buildGlobalPathTypeOrder: the configured order, or the default one if it is not a permutation. */
  method PathTypeOrder(configured: seq<Option<MatchType>>) returns (order: seq<MatchType>)
    ensures IsMatchOrder(order)
    ensures if IsPermutation(configured) then
              |order| == |configured| && forall i :: 0 <= i < |order| ==> configured[i] == Some(order[i])
            else order == DEFAULT_ORDER
  {
    var left := {Exact, Prefix, Begin, Regex};
    order := [];
    AllTypes(left);
    for i := 0 to |configured|
      invariant |order| == i && forall a :: 0 <= a < i ==> configured[a] == Some(order[a])
      invariant forall a, b :: 0 <= a < b < i ==> order[a] != order[b]
      invariant forall m :: m in left <==> m !in order
    {
      if configured[i].None? || configured[i].value !in left {
        assert !IsPermutation(configured) by {
          if configured[i].Some? {
            var a :| 0 <= a < i && order[a] == configured[i].value;
            assert configured[a] == configured[i];
          }
        }
        return DEFAULT_ORDER;
      }
      left := left - {configured[i].value};
      order := order + [configured[i].value];
    }
    if left != {} {
      var m :| m in left;
      assert Some(m) !in configured;
      order := DEFAULT_ORDER;
    } else {
      forall m: MatchType ensures Some(m) in configured && m in order {
        assert m !in left;
        var a :| 0 <= a < |order| && order[a] == m;
        assert configured[a] == Some(m);
      }
    }
  }

  lemma AllTypes(s: set<MatchType>)
    requires s == {Exact, Prefix, Begin, Regex}
    ensures forall m: MatchType :: m in s
  {
    forall m: MatchType ensures m in s {
      match m { case Exact => case Prefix => case Begin => case Regex => }
    }
  }

  // ---------------------------------------------------------------- the map

  class HostsMap {
    const matchOrder: seq<MatchType>
    var entries: seq<Entry>
    var rawhosts: map<string, seq<nat>>
    var rawfiles: map<MatchType, seq<nat>>
    var st: Placement

    constructor (order: seq<MatchType>)
      ensures matchOrder == order && entries == [] && Valid() && st == Placement([], [], map[], map[])
    {
      matchOrder := order;
      entries, rawhosts, rawfiles := [], map[], map[];
      st := Placement([], [], map[], map[]);
    }

    ghost predicate Valid()
      reads this
    {
      && RawHostsOk(rawhosts, entries)
      && KeptOk(rawfiles, map[], entries)
      && forall id :: 0 <= id < |entries| ==> EntryOk(entries[id])
    }

    method AddTarget(hostname: string, path: string, headers: Option<seq<HTTPMatch>>, order: int, target: string, m: MatchType)
      requires Valid()
      modifies this`entries, this`rawhosts, this`rawfiles
      ensures Valid()
      ensures |entries| == |old(entries)| + 1 && entries[..|old(entries)|] == old(entries)
      ensures var e := entries[|old(entries)|];
              && e.match_ == m && e.headers == headers && e.order == order && e.value == target
              && IsLowerOf(hostname, e.hostname) && (if m == Begin then IsLowerOf(path, e.path) else e.path == path)
              && IsKeyOf(m, e.hostname, e.path, e.key)
    {
      hide Lower, IsLowerOf, BuildMapKey, IsKeyOf, RawHostsOk, KeptOk;
      var h := Lower(hostname);
      var p := if m == Begin then Lower(path) else path;
      LowerTwice(path);
      LowerIs(hostname);
      LowerIs(path);
      KeyIs(m, h, p);
      var id := |entries|;
      entries := entries + [Entry(h, p, m, headers, order, BuildMapKey(m, h, p), target)];
      rawfiles := rawfiles[m := (if m in rawfiles then rawfiles[m] else []) + [id]];
      rawhosts := rawhosts[h := (if h in rawhosts then rawhosts[h] else []) + [id]];
      RawFilesGrow(old(rawfiles), rawfiles, old(entries), entries);
      RawHostsGrow(old(rawhosts), rawhosts, old(entries), entries);
    }

    /** findMatchFile: searches from `_upper`, or from the front. */
    method FindMatchFile(files: seq<File>, id: nat) returns (at: nat)
      requires id < |entries|
      ensures at == PlaceIndex(files, StartOf(st, id), entries[id])
    {
      var k := if id in st.upper then st.upper[id] else 0;
      while k < |files|
        invariant PlaceIndex(files, StartOf(st, id), entries[id]) == PlaceIndex(files, k, entries[id])
        decreases |files| - k
      {
        if Fits(files[k], entries[id]) {
          return k;
        }
        k := k + 1;
      }
      at := |files|;
    }

    /** The body of the loop over pairs of entries of a host. */
    method ProcessPair(id1: nat, id2: nat)
      requires id1 < |entries| && id2 < |entries|
      modifies this`st
      ensures st == Pair(old(st), entries, id1, id2)
    {
      var e1, e2 := entries[id1], entries[id2];
      if !HasFilter(e1) && !HasFilter(e2) {
        if Overlaps(e1, e2) || e1.headers != e2.headers {
          if id1 !in st.elem {
            var at := FindMatchFile(st.order, id1);
            st := st.(order := Place(st.order, at, e1, id1), elem := st.elem[id1 := at]);
          }
          st := st.(upper := st.upper[id2 := st.elem[id1]]);
        }
      } else {
        MoveIfFiltered(id1);
        MoveIfFiltered(id2);
      }
    }

    method MoveIfFiltered(id: nat)
      requires id < |entries|
      modifies this`st
      ensures st == IfFiltered(old(st), entries, id)
    {
      if HasFilter(entries[id]) && id !in st.elem {
        var at := FindMatchFile(st.withFilters, id);
        st := st.(withFilters := Place(st.withFilters, at, entries[id], id), elem := st.elem[id := at]);
      }
    }

    /** All pairs of one entry with the later ones. */
    method ProcessRow(es: seq<nat>, i: nat)
      requires IsHostList(es, entries) && i < |es|
      modifies this`st
      ensures st == Row(old(st), entries, es, i, |es|)
    {
      for j := i + 1 to |es|
        invariant st == Row(old(st), entries, es, i, j)
      {
        ProcessPair(es[i], es[j]);
      }
    }

    /** The entries of one host, in their sorted order. */
    method ProcessHost(es: seq<nat>)
      requires IsHostList(es, entries)
      modifies this`st
      ensures st == PlaceHost(old(st), entries, es)
    {
      if |es| == 1 {
        MoveIfFiltered(es[0]);
      }
      ghost var start := st;
      for i := 0 to |es|
        invariant st == Rows(start, entries, es, i)
      {
        ProcessRow(es, i);
      }
    }

    /** First half of rebuildMatchFiles: every host, sorted in place and then placed. */
    method ProcessHosts(hosts: seq<string>)
      requires RawHostsOk(rawhosts, entries) && st == NOTHING_PLACED && IsIteration(hosts, rawhosts)
      modifies this`rawhosts, this`st
      ensures rawhosts == SortedLists(old(rawhosts), entries) && RawHostsOk(rawhosts, entries)
      ensures st == PlaceHosts(entries, rawhosts, hosts)
    {
      hide PlaceHost, PlaceHosts, SortedList, SortedSoFar;
      ghost var raw0, lists := rawhosts, SortedLists(rawhosts, entries);
      SortedListsOk(rawhosts, entries);
      NoneSorted(raw0, entries, lists);
      for k := 0 to |hosts|
        invariant SortedSoFar(raw0, rawhosts, entries, hosts[..k])
        invariant st == PlaceHosts(entries, lists, hosts[..k])
      {
        SortedNext(raw0, rawhosts, entries, hosts, k);
        PlacedNext(entries, lists, hosts, k);
        var h := hosts[k];
        rawhosts := rawhosts[h := SortedList(rawhosts[h], entries)];
        ProcessHost(rawhosts[h]);
      }
      assert hosts[..|hosts|] == hosts;
      AllSorted(raw0, rawhosts, entries, hosts);
    }

    /** Drops the moved entries of one default file. */
    method ShrinkFile(m: MatchType)
      requires m in rawfiles
      modifies this`rawfiles
      ensures rawfiles == old(rawfiles)[m := SwappedOut(old(rawfiles)[m], |old(rawfiles)[m]|, st.elem)]
    {
      var raw := rawfiles[m];
      var a := new nat[|raw|](i requires 0 <= i < |raw| => raw[i]);
      assert a[..] == raw;
      var l := Shrink(a, st.elem);
      rawfiles := rawfiles[m := a[..l]];
    }

    /** Shrinks one default file and pushes what is left of it: exact in front, the others behind. */
    method AddDefaultFile(m: MatchType, files: seq<File>) returns (r: seq<File>)
      modifies this`rawfiles
      ensures rawfiles == if m in old(rawfiles) then old(rawfiles)[m := SwappedOut(old(rawfiles)[m], |old(rawfiles)[m]|, st.elem)]
                          else old(rawfiles)
      ensures r == (if m == Exact then DefaultFile(m, rawfiles) else []) + files + (if m != Exact then DefaultFile(m, rawfiles) else [])
    {
      r := files;
      if m in rawfiles {
        ShrinkFile(m);
        if rawfiles[m] != [] {
          var f := File(m, None, false, rawfiles[m]);
          if m == Exact {
            r := [f] + r;
          } else {
            r := r + [f];
          }
        }
      }
    }

    ghost predicate DefaultsBy(raw0: map<MatchType, seq<nat>>, ms: seq<MatchType>, files: seq<File>)
      reads this
    {
      && ShrunkBy(raw0, rawfiles, st.elem, ms)
      && files == Front(ms, rawfiles) + st.order + Back(ms, rawfiles)
    }

    method AddNextDefault(m: MatchType, files: seq<File>, ghost raw0: map<MatchType, seq<nat>>, ghost ms: seq<MatchType>)
        returns (r: seq<File>)
      requires DefaultsBy(raw0, ms, files) && m !in ms
      modifies this`rawfiles
      ensures DefaultsBy(raw0, ms + [m], r)
    {
      hide SwappedOut, DefaultFile, ShrunkBy, Front, Back;
      ghost var before := rawfiles;
      r := AddDefaultFile(m, files);
      NextShrunk(raw0, before, rawfiles, st.elem, ms, m);
      NextDefault(before, rawfiles, ms, m, st.order);
    }

    /** The default files join the priority files, in the configured order. */
    method AddDefaultFiles() returns (files: seq<File>)
      requires IsMatchOrder(matchOrder)
      modifies this`rawfiles
      ensures rawfiles == Shrunken(old(rawfiles), st.elem)
      ensures files == Front(matchOrder, rawfiles) + st.order + Back(matchOrder, rawfiles)
    {
      hide SwappedOut, DefaultFile, ShrunkBy;
      NoneShrunk(rawfiles, st.elem);
      files := st.order;
      ghost var raw0 := rawfiles;
      assert [] + st.order + [] == st.order;
      for i := 0 to |matchOrder|
        invariant DefaultsBy(raw0, matchOrder[..i], files)
      {
        assert matchOrder[i] !in matchOrder[..i];
        assert matchOrder[..i + 1] == matchOrder[..i] + [matchOrder[i]];
        files := AddNextDefault(matchOrder[i], files, raw0, matchOrder[..i]);
      }
      assert matchOrder[..|matchOrder|] == matchOrder;
      AllShrunk(raw0, rawfiles, st.elem, matchOrder);
    }

    /**
     rebuildMatchFiles, on the first call after the entries were added, with the hosts visited in the order of `hosts`,
     which Go's iteration over a map leaves open. Every entry is in exactly one file, of its own type and filter, and a
     host that can be looked up by longest path is, exactly when its paths are in order for the type of the entry that
     the hosts move first.
     */
    method RebuildMatchFiles(hosts: seq<string>) returns (files: seq<File>)
      requires Valid() && st == NOTHING_PLACED && IsMatchOrder(matchOrder) && IsIteration(hosts, rawhosts)
      modifies this`rawhosts, this`rawfiles, this`st
      ensures rawhosts == SortedLists(old(rawhosts), entries)
      ensures Buildable(entries, old(rawfiles), rawhosts) && IsIteration(hosts, rawhosts)
      ensures files == BuildFiles(entries, old(rawfiles), matchOrder, rawhosts, hosts)
      ensures forall id: nat :: id < |entries| ==> Occurs(files, id) == 1
      ensures AllFit(files, entries) && NamesDiffer(files)
      ensures forall x :: 0 <= x < |files| && (AllNamed(entries) || files[x].match_ == Exact || files[x].match_ == Regex) ==>
                            IsOrdered(files[x], entries)
      ensures forall h :: h in rawhosts && IsServable(EntriesOf(entries, rawhosts[h])) && AllNamed(entries) ==>
                PrecedenceHolds(files, entries, h, EntriesOf(entries, rawhosts[h]), FirstOr(FirstOf(entries, rawhosts, hosts)))
    {
      hide KeptOk, SortedList, IsOrdered, PrecedenceHolds, IsServable, AllNamed, PlaceHosts, FirstOf;
      SortedListsOk(rawhosts, entries);
      ProcessHosts(hosts);
      BuildConserves(entries, rawfiles, matchOrder, rawhosts, hosts);
      BuildOrders(entries, rawfiles, matchOrder, rawhosts, hosts);
      BuildNames(entries, rawfiles, matchOrder, rawhosts, hosts);
      if AllNamed(entries) {
        BuildPrecedence(entries, rawfiles, matchOrder, rawhosts, hosts);
      }
      var unsorted := AddDefaultFiles();
      files := SortAll(st.withFilters + unsorted, entries);
    }
  }

  lemma RawFilesGrow(rawfiles: map<MatchType, seq<nat>>, rawfiles': map<MatchType, seq<nat>>, entries: seq<Entry>, entries': seq<Entry>)
    requires KeptOk(rawfiles, map[], entries) && |entries'| == |entries| + 1 && entries == entries'[..|entries|]
    requires var m := entries'[|entries|].match_;
             rawfiles' == rawfiles[m := (if m in rawfiles then rawfiles[m] else []) + [|entries|]]
    ensures KeptOk(rawfiles', map[], entries')
  {
    var n, m := |entries|, entries'[|entries|].match_;
    forall x, id: nat | x in rawfiles' ensures id in rawfiles'[x] <==> IsKept(id, x, map[], entries') {
      if x in rawfiles {
        assert id in rawfiles[x] <==> IsKept(id, x, map[], entries);
      } else if id < n {
        assert entries[id].match_ in rawfiles;
      }
    }
    if m in rawfiles {
      assert n in rawfiles[m] <==> IsKept(n, m, map[], entries);
    }
  }

  lemma HostListGrows(es: seq<nat>, h: string, entries: seq<Entry>, entries': seq<Entry>)
    requires IsHostList(es, entries) && |entries'| == |entries| + 1 && entries == entries'[..|entries|]
    requires forall k :: 0 <= k < |es| ==> entries[es[k]].hostname == h
    ensures IsHostList(es, entries') && IsHostList(es + [|entries|], entries')
    ensures forall k :: 0 <= k < |es| ==> entries'[es[k]].hostname == h
  {
    forall k | 0 <= k < |es| ensures entries'[es[k]] == entries[es[k]] {
    }
  }

  lemma RawHostsGrow(rawhosts: map<string, seq<nat>>, rawhosts': map<string, seq<nat>>, entries: seq<Entry>, entries': seq<Entry>)
    requires RawHostsOk(rawhosts, entries) && |entries'| == |entries| + 1 && entries == entries'[..|entries|]
    requires var h := entries'[|entries|].hostname;
             rawhosts' == rawhosts[h := (if h in rawhosts then rawhosts[h] else []) + [|entries|]]
    ensures RawHostsOk(rawhosts', entries')
  {
    var n, h := |entries|, entries'[|entries|].hostname;
    forall g | g in rawhosts'
      ensures IsHostList(rawhosts'[g], entries')
      ensures forall k :: 0 <= k < |rawhosts'[g]| ==> entries'[rawhosts'[g][k]].hostname == g
    {
      HostListGrows(if g in rawhosts then rawhosts[g] else [], g, entries, entries');
    }
    forall id: nat | id < |entries'| ensures entries'[id].hostname in rawhosts' && id in rawhosts'[entries'[id].hostname] {
      if id < n {
        assert entries[id] == entries'[id];
        assert id in rawhosts[entries[id].hostname];
      } else {
        assert rawhosts'[h][|rawhosts'[h]| - 1] == n;
      }
    }
  }

  /** shrink: removes the moved entries by swapping in the last ones. */
  method Shrink(e: array<nat>, placed: map<nat, nat>) returns (l: nat)
    modifies e
    ensures l <= e.Length
    ensures e[..l] == SwappedOut(old(e[..]), e.Length, placed)
  {
    l := e.Length;
    var i := l;
    assert e[..l] == e[..];
    while i > 0
      invariant 0 <= i <= l <= e.Length
      invariant SwappedOut(e[..l], i, placed) == SwappedOut(old(e[..]), e.Length, placed)
    {
      i := i - 1;
      if e[i] in placed {
        l := l - 1;
        ghost var s := e[..l + 1];
        e[i] := e[l];
        assert e[..l] == SwapOut(s, i);
      }
    }
  }

  /** The lists of these hosts have been sorted, the others not yet. */
  ghost predicate SortedSoFar(raw0: map<string, seq<nat>>, raw: map<string, seq<nat>>, entries: seq<Entry>, hosts: seq<string>)
  {
    && raw.Keys == raw0.Keys
    && forall h :: h in raw ==> raw[h] == if h in hosts then SortedList(raw0[h], entries) else raw0[h]
  }

  lemma NoneSorted(raw0: map<string, seq<nat>>, entries: seq<Entry>, lists: map<string, seq<nat>>)
    requires ListsOk(lists, entries)
    ensures SortedSoFar(raw0, raw0, entries, []) && PlaceHosts(entries, lists, []) == NOTHING_PLACED
  {
  }

  lemma SortedNext(raw0: map<string, seq<nat>>, raw: map<string, seq<nat>>, entries: seq<Entry>, hosts: seq<string>, k: nat)
    requires k < |hosts| && SortedSoFar(raw0, raw, entries, hosts[..k]) && IsIteration(hosts, raw0)
    ensures hosts[k] in raw && raw[hosts[k]] == raw0[hosts[k]]
    ensures SortedSoFar(raw0, raw[hosts[k] := SortedList(raw[hosts[k]], entries)], entries, hosts[..k + 1])
  {
    hide SortedList;
    assert hosts[..k + 1] == hosts[..k] + [hosts[k]];
    assert hosts[k] !in hosts[..k];
  }

  lemma AllSorted(raw0: map<string, seq<nat>>, raw: map<string, seq<nat>>, entries: seq<Entry>, hosts: seq<string>)
    requires SortedSoFar(raw0, raw, entries, hosts) && IsIteration(hosts, raw0)
    ensures raw == SortedLists(raw0, entries)
  {
    hide SortedList;
  }

  lemma PlacedNext(entries: seq<Entry>, lists: map<string, seq<nat>>, hosts: seq<string>, k: nat)
    requires ListsOk(lists, entries) && (forall i :: 0 <= i < |hosts| ==> hosts[i] in lists) && k < |hosts|
    ensures PlaceHosts(entries, lists, hosts[..k + 1]) ==
              PlaceHost(PlaceHosts(entries, lists, hosts[..k]), entries, lists[hosts[k]])
  {
    hide PlaceHost;
    assert hosts[..k + 1][..k] == hosts[..k];
  }

  /** The files of the types in `ms` have been shrunk, the others not yet. */
  ghost predicate ShrunkBy(raw0: map<MatchType, seq<nat>>, raw: map<MatchType, seq<nat>>, elem: map<nat, nat>, ms: seq<MatchType>)
  {
    && raw.Keys == raw0.Keys
    && forall m :: m in raw ==> raw[m] == if m in ms then SwappedOut(raw0[m], |raw0[m]|, elem) else raw0[m]
  }

  lemma NoneShrunk(raw0: map<MatchType, seq<nat>>, elem: map<nat, nat>)
    ensures ShrunkBy(raw0, raw0, elem, [])
  {
  }

  lemma NextShrunk(raw0: map<MatchType, seq<nat>>, before: map<MatchType, seq<nat>>, raw: map<MatchType, seq<nat>>,
                   elem: map<nat, nat>, ms: seq<MatchType>, m: MatchType)
    requires ShrunkBy(raw0, before, elem, ms) && m !in ms
    requires raw == if m in before then before[m := SwappedOut(before[m], |before[m]|, elem)] else before
    ensures ShrunkBy(raw0, raw, elem, ms + [m])
  {
    hide SwappedOut;
    assert forall x :: x in ms + [m] <==> x in ms || x == m;
  }

  lemma AllShrunk(raw0: map<MatchType, seq<nat>>, raw: map<MatchType, seq<nat>>, elem: map<nat, nat>, ms: seq<MatchType>)
    requires ShrunkBy(raw0, raw, elem, ms) && IsMatchOrder(ms)
    ensures raw == Shrunken(raw0, elem)
  {
    hide SwappedOut;
    forall m: MatchType ensures m in ms {
      match m { case Exact => case Prefix => case Begin => case Regex => }
    }
  }

  lemma NextDefault(before: map<MatchType, seq<nat>>, raw: map<MatchType, seq<nat>>, ms: seq<MatchType>, m: MatchType, order: seq<File>)
    requires m !in ms && raw.Keys == before.Keys && (forall x :: x in raw && x != m ==> raw[x] == before[x])
    ensures (if m == Exact then DefaultFile(m, raw) else []) + (Front(ms, before) + order + Back(ms, before)) +
            (if m != Exact then DefaultFile(m, raw) else []) ==
            Front(ms + [m], raw) + order + Back(ms + [m], raw)
  {
    DefaultsAgree(ms, before, raw);
    assert (ms + [m])[..|ms|] == ms;
    var a := if m == Exact then DefaultFile(m, raw) else [];
    var b := if m != Exact then DefaultFile(m, raw) else [];
    assert Front(ms + [m], raw) == a + Front(ms, raw);
    assert Back(ms + [m], raw) == Back(ms, raw) + b;
    Reassociate(a, Front(ms, raw), order, Back(ms, raw), b);
  }

  lemma Reassociate(a: seq<File>, front: seq<File>, order: seq<File>, back: seq<File>, b: seq<File>)
    ensures a + (front + order + back) + b == (a + front) + order + (back + b)
  {
  }

  lemma {:induction false} DefaultsAgree(ms: seq<MatchType>, raw: map<MatchType, seq<nat>>, raw': map<MatchType, seq<nat>>)
    requires forall m :: m in ms ==> DefaultFile(m, raw) == DefaultFile(m, raw')
    ensures Front(ms, raw) == Front(ms, raw') && Back(ms, raw) == Back(ms, raw')
  {
    if ms != [] {
      assert ms[|ms| - 1] in ms;
      DefaultsAgree(ms[..|ms| - 1], raw, raw');
    }
  }
}
