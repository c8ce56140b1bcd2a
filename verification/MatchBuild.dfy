/**
 The match files of a map as a function of its entries and of the order in which the hosts are visited:
 every entry is in one file, and when the first match is the longest one.
 */
module MatchBuild {
  import opened Model
  import opened Ordering
  import opened PathPrecedence
  import opened MatchPlacement
  import opened MatchAssembly
  import opened MatchLookup

  // ---------------------------------------------------------------- the lists of entries per host

  ghost predicate RawHostsOk(rawhosts: map<string, seq<nat>>, entries: seq<Entry>)
  {
    && (forall h :: h in rawhosts ==> IsHostList(rawhosts[h], entries))
    && (forall h, k :: h in rawhosts && 0 <= k < |rawhosts[h]| ==> entries[rawhosts[h][k]].hostname == h)
    && (forall id: nat :: id < |entries| ==> entries[id].hostname in rawhosts && id in rawhosts[entries[id].hostname])
  }

  /** Lists of entries without filters have longer paths first. */
  ghost predicate ListsSorted(lists: map<string, seq<nat>>, entries: seq<Entry>)
    requires ListsOk(lists, entries)
  {
    forall h :: h in lists && FilterFree(EntriesOf(entries, lists[h])) ==> Descending(EntriesOf(entries, lists[h]))
  }

  predicate HostLess(e1: Entry, e2: Entry)
  {
    if e1.headers == e2.headers then LexLess(e2.path, e1.path) else HasFilter(e1)
  }

  function HostComparison(entries: seq<Entry>): (nat, nat) -> bool
  {
    (a: nat, b: nat) => a < |entries| && b < |entries| && !HostLess(entries[b], entries[a])
  }

  /** Entries with filters first, and longer paths first among entries of the same filter. */
  ghost predicate FilteredThenLonger(e1: Entry, e2: Entry)
  {
    if e1.headers == e2.headers then LexLe(e2.path, e1.path) else e1.headers.Some?
  }

  /** The filters of the entries are all the same. */
  ghost predicate OneFilter(entries: seq<Entry>, d: set<nat>)
  {
    && (forall x :: x in d ==> x < |entries|)
    && (forall x, y :: x in d && y in d && entries[x].headers.Some? && entries[y].headers.Some? ==>
                         entries[x].headers == entries[y].headers)
  }

  lemma HostComparisonMeans(entries: seq<Entry>, d: set<nat>, x: nat, y: nat)
    requires OneFilter(entries, d) && x in d && y in d
    ensures HostComparison(entries)(x, y) <==> FilteredThenLonger(entries[x], entries[y])
  {
    LexTotal(entries[x].path, entries[y].path);
    if LexLe(entries[x].path, entries[y].path) && LexLe(entries[y].path, entries[x].path) {
      LexAntisymmetric(entries[x].path, entries[y].path);
    }
  }

  lemma HostComparisonIsPreorder(entries: seq<Entry>, d: set<nat>)
    requires OneFilter(entries, d)
    ensures PreorderOn(d, HostComparison(entries))
  {
    hide HostComparison;
    var le := HostComparison(entries);
    forall x, y | x in d && y in d ensures le(x, y) || le(y, x) {
      HostComparisonMeans(entries, d, x, y);
      HostComparisonMeans(entries, d, y, x);
      LexTotal(entries[x].path, entries[y].path);
    }
    forall x, y, z | x in d && y in d && z in d && le(x, y) && le(y, z) ensures le(x, z) {
      HostComparisonMeans(entries, d, x, y);
      HostComparisonMeans(entries, d, y, z);
      HostComparisonMeans(entries, d, x, z);
      if entries[x].headers == entries[y].headers == entries[z].headers {
        LexTransitive(entries[z].path, entries[y].path, entries[x].path);
      }
    }
  }

  /** The entries of a host as `sort.Slice` leaves them. */
  function SortedList(es: seq<nat>, entries: seq<Entry>): seq<nat>
  {
    Sort(es, HostComparison(entries))
  }

  function SortedLists(rawhosts: map<string, seq<nat>>, entries: seq<Entry>): map<string, seq<nat>>
  {
    map h | h in rawhosts :: SortedList(rawhosts[h], entries)
  }

  /** Longer paths first; with filters in the list only a rearrangement is promised. */
  lemma SortedListOk(es: seq<nat>, entries: seq<Entry>)
    requires IsHostList(es, entries)
    ensures var r := SortedList(es, entries);
            && IsHostList(r, entries) && multiset(r) == multiset(es)
            && (FilterFree(EntriesOf(entries, r)) ==> Descending(EntriesOf(entries, r)))
  {
    var r := SortedList(es, entries);
    forall k | 0 <= k < |r| ensures r[k] in es {
      assert r[k] in multiset(r) && r[k] in multiset(es);
    }
    DistinctRearranged(es, r);
    if FilterFree(EntriesOf(entries, r)) {
      SortedDescending(es, entries, r);
    }
  }

  lemma SortedListsOk(rawhosts: map<string, seq<nat>>, entries: seq<Entry>)
    requires RawHostsOk(rawhosts, entries)
    ensures RawHostsOk(SortedLists(rawhosts, entries), entries) && ListsSorted(SortedLists(rawhosts, entries), entries)
  {
    var lists := SortedLists(rawhosts, entries);
    forall h | h in lists
      ensures IsHostList(lists[h], entries)
      ensures FilterFree(EntriesOf(entries, lists[h])) ==> Descending(EntriesOf(entries, lists[h]))
      ensures forall x: nat :: x in lists[h] <==> x in rawhosts[h]
    {
      SortedListOk(rawhosts[h], entries);
      forall x: nat ensures x in lists[h] <==> x in rawhosts[h] {
        SameMembers(lists[h], rawhosts[h], x);
      }
    }
    forall h, k | h in lists && 0 <= k < |lists[h]| ensures entries[lists[h][k]].hostname == h {
      assert lists[h][k] in rawhosts[h];
      var p :| 0 <= p < |rawhosts[h]| && rawhosts[h][p] == lists[h][k];
    }
  }

  lemma FilterFreeMembers(es: seq<nat>, entries: seq<Entry>, r: seq<nat>, x: nat)
    requires IsHostList(es, entries) && IsHostList(r, entries) && multiset(es) == multiset(r)
    requires FilterFree(EntriesOf(entries, r)) && x in es
    ensures x < |entries| && !HasFilter(entries[x])
  {
    assert x in multiset(es) && x in multiset(r);
    var k :| 0 <= k < |r| && r[k] == x;
    assert EntriesOf(entries, r)[k] == entries[x];
  }

  /** The order of a host's list; with several filters the comparison is not an ordering and promises nothing. */
  lemma FilteredFirst(es: seq<nat>, entries: seq<Entry>)
    requires OneFilter(entries, set id: nat | id in es)
    ensures var r := SortedList(es, entries);
            && multiset(r) == multiset(es)
            && (forall p :: 0 <= p < |r| ==> r[p] < |entries|)
            && (forall p, q :: 0 <= p < q < |r| ==> FilteredThenLonger(entries[r[p]], entries[r[q]]))
  {
    hide HostComparison, FilteredThenLonger;
    var r := SortedList(es, entries);
    var d := set id: nat | id in es;
    HostComparisonIsPreorder(entries, d);
    SortSortedOn<nat>(d, es, HostComparison(entries));
    forall p | 0 <= p < |r| ensures r[p] in d {
      assert r[p] in multiset(r) && r[p] in multiset(es);
    }
    forall p, q | 0 <= p < q < |r| ensures FilteredThenLonger(entries[r[p]], entries[r[q]]) {
      HostComparisonMeans(entries, d, r[p], r[q]);
    }
  }

  lemma SortedDescending(es: seq<nat>, entries: seq<Entry>, r: seq<nat>)
    requires IsHostList(es, entries) && IsHostList(r, entries)
    requires r == Sort(es, HostComparison(entries)) && FilterFree(EntriesOf(entries, r))
    ensures Descending(EntriesOf(entries, r))
  {
    var d: set<nat> := set id: nat | id in es;
    forall x | x in d ensures x < |entries| && !HasFilter(entries[x]) {
      FilterFreeMembers(es, entries, r, x);
    }
    FilteredFirst(es, entries);
    var l := EntriesOf(entries, r);
    forall i, j | 0 <= i < j < |l| ensures LexLe(l[j].path, l[i].path) {
      assert FilteredThenLonger(entries[r[i]], entries[r[j]]);
      assert !HasFilter(l[i]) && !HasFilter(l[j]);
    }
  }

  lemma SameMembers(s: seq<nat>, t: seq<nat>, x: nat)
    requires multiset(s) == multiset(t)
    ensures x in s <==> x in t
  {
    assert x in multiset(s) <==> x in multiset(t);
  }

  // ---------------------------------------------------------------- the placement of all hosts

  /** Nothing of the host was placed yet. */
  ghost predicate HostFresh(es: seq<nat>, st: Placement)
  {
    forall k :: 0 <= k < |es| ==> es[k] !in st.elem && es[k] !in st.upper
  }

  /** The host is sorted and placed: filtered entries moved, the others at their levels. */
  ghost predicate HostDone(es: seq<nat>, entries: seq<Entry>, st: Placement)
  {
    && IsHostList(es, entries)
    && FilteredMoved(st.elem, entries, es, 0, |es|)
    && var l := EntriesOf(entries, es);
       FilterFree(l) ==> Descending(l) && HostPlaced(l, es, st.elem, st.order)
  }

  /** Processing one host leaves the entries of the others alone. */
  lemma OtherHostKept(rawhosts: map<string, seq<nat>>, entries: seq<Entry>, st0: Placement, st: Placement, h: string, g: string)
    requires RawHostsOk(rawhosts, entries) && h in rawhosts && g in rawhosts && g != h
    requires Extends(st0, st, Ids(rawhosts[h]))
    ensures HostDone(rawhosts[g], entries, st0) ==> HostDone(rawhosts[g], entries, st)
    ensures HostFresh(rawhosts[g], st0) ==> HostFresh(rawhosts[g], st)
  {
    var es := rawhosts[g];
    forall k | 0 <= k < |es| ensures es[k] !in Ids(rawhosts[h]) {
      assert entries[es[k]].hostname == g;
    }
    forall k | 0 <= k < |es| ensures SameAt(st0.elem, st.elem, es[k]) && SameAt(st0.upper, st.upper, es[k]) {
      assert es[k] !in Ids(rawhosts[h]);
    }
    if HostDone(es, entries, st0) && FilterFree(EntriesOf(entries, es)) {
      HostStaysPlaced(EntriesOf(entries, es), es, st0.elem, st0.order, st.elem, st.order, Ids(rawhosts[h]));
    }
  }

  /** The hosts of `todo` are fresh, the others are done. */
  ghost predicate HostsBy(rawhosts: map<string, seq<nat>>, entries: seq<Entry>, st: Placement, todo: set<string>)
  {
    forall h :: h in rawhosts ==> if h in todo then HostFresh(rawhosts[h], st) else HostDone(rawhosts[h], entries, st)
  }

  lemma NextHosts(rawhosts: map<string, seq<nat>>, entries: seq<Entry>, st0: Placement, st: Placement,
                  todo: set<string>, h: string)
    requires HostsBy(rawhosts, entries, st0, todo) && RawHostsOk(rawhosts, entries)
    requires h in rawhosts
    requires HostDone(rawhosts[h], entries, st) && Extends(st0, st, Ids(rawhosts[h]))
    ensures HostsBy(rawhosts, entries, st, todo - {h})
  {
    forall g | g in rawhosts
      ensures if g in todo - {h} then HostFresh(rawhosts[g], st) else HostDone(rawhosts[g], entries, st)
    {
      if g != h {
        OtherHostKept(rawhosts, entries, st0, st, h, g);
      }
    }
  }

  /** Every host is visited once. */
  ghost predicate IsIteration(hosts: seq<string>, lists: map<string, seq<nat>>)
  {
    && (forall k :: 0 <= k < |hosts| ==> hosts[k] in lists)
    && (forall i, j :: 0 <= i < j < |hosts| ==> hosts[i] != hosts[j])
    && (forall h :: h in lists ==> h in hosts)
  }

  lemma {:induction false} PlacedHosts(entries: seq<Entry>, lists: map<string, seq<nat>>, hosts: seq<string>, todo: set<string>)
    requires ListsOk(lists, entries)
    requires RawHostsOk(lists, entries) && ListsSorted(lists, entries)
    requires forall k :: 0 <= k < |hosts| ==> hosts[k] in lists
    requires forall i, j :: 0 <= i < j < |hosts| ==> hosts[i] != hosts[j]
    requires forall h :: h in todo <==> h in lists && h !in hosts
    ensures Sound(PlaceHosts(entries, lists, hosts), entries)
    ensures HostsBy(lists, entries, PlaceHosts(entries, lists, hosts), todo)
    ensures HeadOf(PlaceHosts(entries, lists, hosts).order) == FirstOf(entries, lists, hosts)
  {
    hide Sound, RawHostsOk, ListsSorted, HostsBy, PlaceHost, FirstMoved;
    if hosts == [] {
      NothingPlaced(entries, lists);
      assert todo == lists.Keys;
    } else {
      var n := |hosts| - 1;
      var h, st := hosts[n], PlaceHosts(entries, lists, hosts[..n]);
      assert hosts == hosts[..n] + [h];
      PlacedHosts(entries, lists, hosts[..n], todo + {h});
      HostIsPlaced(entries, lists, st, todo + {h}, h);
      assert todo + {h} - {h} == todo;
    }
  }

  /** One host more. */
  lemma HostIsPlaced(entries: seq<Entry>, lists: map<string, seq<nat>>, st: Placement, todo: set<string>, h: string)
    requires RawHostsOk(lists, entries) && ListsSorted(lists, entries) && Sound(st, entries)
    requires HostsBy(lists, entries, st, todo) && h in todo && h in lists
    ensures var st' := PlaceHost(st, entries, lists[h]);
            && Sound(st', entries) && HostsBy(lists, entries, st', todo - {h})
            && HeadOf(st'.order) == OrElse(HeadOf(st.order), FirstMoved(EntriesOf(entries, lists[h])))
  {
    hide Sound, Extends, PlaceHost, HostPlaced, FirstMoved;
    HostPlacement(st, entries, lists[h], EntriesOf(entries, lists[h]));
    HostHead(st, entries, lists[h], EntriesOf(entries, lists[h]));
    NextHosts(lists, entries, st, PlaceHost(st, entries, lists[h]), todo, h);
  }

  lemma NothingPlaced(entries: seq<Entry>, lists: map<string, seq<nat>>)
    requires RawHostsOk(lists, entries)
    ensures Sound(NOTHING_PLACED, entries) && HostsBy(lists, entries, NOTHING_PLACED, lists.Keys)
  {
  }

  // ---------------------------------------------------------------- default files

  /** The last entry takes the place of entry `i`. */
  function SwapOut(s: seq<nat>, i: nat): (r: seq<nat>)
    requires i < |s|
    ensures |r| == |s| - 1
  {
    s[i := s[|s| - 1]][..|s| - 1]
  }

  /** What is left of `s` after the moved entries before position `i` are swapped out, from the last one on. */
  function SwappedOut(s: seq<nat>, i: nat, placed: map<nat, nat>): seq<nat>
    requires i <= |s|
    decreases i
  {
    if i == 0 then s
    else
      SwappedOut(if s[i - 1] in placed then SwapOut(s, i - 1) else s, i - 1, placed)
  }

  /** Swapping out keeps the other entries, each as often as it was there. */
  lemma {:induction false} SwappedOutCount(s: seq<nat>, i: nat, placed: map<nat, nat>, x: nat)
    requires i <= |s| && forall k :: i <= k < |s| ==> s[k] !in placed
    ensures multiset(SwappedOut(s, i, placed))[x] == if x in placed then 0 else multiset(s)[x]
    decreases i
  {
    hide SwapOut;
    if i == 0 {
      assert x in placed ==> x !in s;
    } else if s[i - 1] in placed {
      SwapOutFacts(s, i - 1, placed, x);
      SwappedOutCount(SwapOut(s, i - 1), i - 1, placed, x);
    } else {
      SwappedOutCount(s, i - 1, placed, x);
    }
  }

  lemma SwapOutFacts(s: seq<nat>, i: nat, placed: map<nat, nat>, x: nat)
    requires i < |s| && s[i] in placed && forall k :: i < k < |s| ==> s[k] !in placed
    ensures forall k :: i <= k < |s| - 1 ==> SwapOut(s, i)[k] !in placed
    ensures x !in placed ==> multiset(SwapOut(s, i))[x] == multiset(s)[x]
  {
    SwapRemove(s, i);
    CountWithout(multiset(SwapOut(s, i)), multiset(s), s[i], x);
  }

  lemma CountWithout(m: multiset<nat>, n: multiset<nat>, y: nat, x: nat)
    requires m + multiset{y} == n
    ensures m[x] == n[x] - (if x == y then 1 else 0)
  {
    assert n[x] == m[x] + multiset{y}[x];
  }

  lemma SwapRemove(s: seq<nat>, i: nat)
    requires i < |s|
    ensures multiset(SwapOut(s, i)) + multiset{s[i]} == multiset(s)
  {
    hide SwapOut;
    SwapOutParts(s, i);
    if i == |s| - 1 {
      TakenOut(s, i);
    } else {
      Exchanged(s[..i], s[i], s[i + 1..|s| - 1], s[|s| - 1]);
    }
  }

  lemma SwapOutParts(s: seq<nat>, i: nat)
    requires i < |s|
    ensures var l := |s| - 1;
            if i == l then SwapOut(s, i) == s[..i] + s[i + 1..]
            else SwapOut(s, i) == s[..i] + [s[l]] + s[i + 1..l] && s == s[..i] + [s[i]] + s[i + 1..l] + [s[l]]
  {
  }

  lemma Exchanged<T>(a: seq<T>, x: T, b: seq<T>, y: T)
    ensures multiset(a + [y] + b) + multiset{x} == multiset(a + [x] + b + [y])
  {
  }

  ghost predicate IsShrunk(s: seq<nat>, t: seq<nat>, elem: map<nat, nat>)
  {
    NoDup(t) && forall id: nat :: id in t <==> id in s && id !in elem
  }

  lemma ShrunkByCount(s: seq<nat>, t: seq<nat>, elem: map<nat, nat>)
    requires NoDup(s)
    requires forall x :: multiset(t)[x] == if x in elem then 0 else multiset(s)[x]
    ensures IsShrunk(s, t, elem)
  {
    forall id: nat ensures id in t <==> id in s && id !in elem {
      assert id in t <==> multiset(t)[id] > 0;
      assert id in s <==> multiset(s)[id] > 0;
    }
    forall i, j | 0 <= i < j < |t| ensures t[i] != t[j] {
      NoDupCount(s, t[i]);
      if t[i] == t[j] {
        OccursTwiceIn(t, i, j);
      }
    }
  }

  /** The default files without the entries that were moved. */
  function Shrunken(rawfiles: map<MatchType, seq<nat>>, elem: map<nat, nat>): map<MatchType, seq<nat>>
  {
    map m | m in rawfiles :: SwappedOut(rawfiles[m], |rawfiles[m]|, elem)
  }

  lemma ShrunkenKept(rawfiles: map<MatchType, seq<nat>>, elem: map<nat, nat>, entries: seq<Entry>)
    requires KeptOk(rawfiles, map[], entries)
    ensures KeptOk(Shrunken(rawfiles, elem), elem, entries)
  {
    var raw := Shrunken(rawfiles, elem);
    forall m | m in raw ensures IsShrunk(rawfiles[m], raw[m], elem) {
      forall x ensures multiset(raw[m])[x] == if x in elem then 0 else multiset(rawfiles[m])[x] {
        SwappedOutCount(rawfiles[m], |rawfiles[m]|, elem, x);
      }
      ShrunkByCount(rawfiles[m], raw[m], elem);
    }
  }

  // ---------------------------------------------------------------- the final list

  function SortAll(files: seq<File>, entries: seq<Entry>): (r: seq<File>)
    ensures |r| == |files| && forall i :: 0 <= i < |files| ==> r[i] == SortFile(files[i], entries)
  {
    seq(|files|, i requires 0 <= i < |files| => SortFile(files[i], entries))
  }

  lemma {:induction false} OccursSorted(files: seq<File>, entries: seq<Entry>, id: nat)
    ensures Occurs(SortAll(files, entries), id) == Occurs(files, id)
  {
    if files != [] {
      var n := |files| - 1;
      OccursSorted(files[..n], entries, id);
      var r := SortAll(files, entries);
      assert r[..n] == SortAll(files[..n], entries);
      assert multiset(r[n].entries) == multiset(files[n].entries);
    }
  }

  lemma AllFitSorted(files: seq<File>, entries: seq<Entry>)
    requires AllFit(files, entries)
    ensures AllFit(SortAll(files, entries), entries)
  {
    var r := SortAll(files, entries);
    forall k, p | 0 <= k < |r| && 0 <= p < |r[k].entries|
      ensures r[k].entries[p] < |entries| && Fits(r[k], entries[r[k].entries[p]])
    {
      SortFileMembers(files[k], entries, r[k].entries[p]);
      var q :| 0 <= q < |files[k].entries| && files[k].entries[q] == r[k].entries[p];
    }
  }

  lemma AllFilteredMoved(rawhosts: map<string, seq<nat>>, entries: seq<Entry>, st: Placement)
    requires RawHostsOk(rawhosts, entries) && HostsBy(rawhosts, entries, st, {})
    ensures AllFiltered(st.elem, entries)
  {
    forall id: nat | id < |entries| && HasFilter(entries[id]) ensures id in st.elem {
      var h := entries[id].hostname;
      assert HostDone(rawhosts[h], entries, st);
      var k :| 0 <= k < |rawhosts[h]| && rawhosts[h][k] == id;
    }
  }

  /** Conservation: each entry once, in a file it fits. */
  lemma FinalConserved(st: Placement, ms: seq<MatchType>, rawfiles: map<MatchType, seq<nat>>, entries: seq<Entry>)
    requires Sound(st, entries) && KeptOk(rawfiles, st.elem, entries) && AllFiltered(st.elem, entries) && IsMatchOrder(ms)
    ensures var files := SortAll(Assemble(st, ms, rawfiles), entries);
            AllFit(files, entries) && forall id: nat :: id < |entries| ==> Occurs(files, id) == 1
  {
    var files := Assemble(st, ms, rawfiles);
    forall id: nat | id < |entries| ensures Occurs(SortAll(files, entries), id) == 1 {
      AssembledOnce(st, ms, rawfiles, entries, id);
      OccursSorted(files, entries, id);
    }
    AssembledFit(st, ms, rawfiles, entries);
    AllFitSorted(files, entries);
  }

  ghost predicate IsServable(l: seq<Entry>)
  {
    FilterFree(l) && forall k :: 0 <= k < |l| ==> l[k].match_ != Regex && LowerCase(l[k])
  }

  ghost predicate AllNamed(entries: seq<Entry>)
  {
    forall id :: 0 <= id < |entries| ==> WellNamed(entries[id])
  }

  /** Type of the first priority file; without priority files it does not matter. */
  function FirstType(order: seq<File>): MatchType
  {
    if order == [] then Begin else order[0].match_
  }

  ghost predicate PrecedenceHolds(files: seq<File>, entries: seq<Entry>, host: string, l: seq<Entry>, first: MatchType)
  {
    && (LongerFirst(l, first) ==> AnswersLongest(files, entries, host, l))
    && (DistinctPaths(l) && (forall k :: 0 <= k < |l| ==> IsSplit(l[k].match_)) ==>
          (AnswersLongest(files, entries, host, l) <==> LongerFirst(l, first)))
    && (Nested(l) ==> AnswersLongest(files, entries, host, l))
  }

  ghost predicate TypesFrom(files: seq<File>, ms: seq<MatchType>)
  {
    && (forall x, y :: 0 <= x < y < |files| ==> files[x].match_ != files[y].match_)
    && (forall x :: 0 <= x < |files| ==> files[x].match_ in ms)
  }

  lemma {:induction false} BackDistinct(ms: seq<MatchType>, rawfiles: map<MatchType, seq<nat>>)
    requires DistinctTypes(ms)
    ensures TypesFrom(Back(ms, rawfiles), ms)
  {
    if ms != [] {
      var n := |ms| - 1;
      BackDistinct(ms[..n], rawfiles);
      TypesAppend(Back(ms[..n], rawfiles), ms[..n], if ms[n] != Exact then DefaultFile(ms[n], rawfiles) else [], ms[n]);
      assert ms == ms[..n] + [ms[n]];
    }
  }

  lemma TypesAppend(files: seq<File>, ms: seq<MatchType>, f: seq<File>, m: MatchType)
    requires TypesFrom(files, ms) && m !in ms && |f| <= 1 && (f != [] ==> f[0].match_ == m)
    ensures TypesFrom(files + f, ms + [m])
  {
    forall x | 0 <= x < |files| ensures files[x].match_ in ms + [m] && files[x].match_ != m {
    }
  }

  /** The same file up to the order of its entries. */
  ghost predicate SameFile(f: File, g: File)
  {
    f.match_ == g.match_ && f.headers == g.headers && forall id: nat :: id in f.entries <==> id in g.entries
  }

  /** The final list is a list with the four parts at these positions, sorted file by file. */
  ghost predicate HasParts(files: seq<File>, st: Placement, front: seq<File>, back: seq<File>, base: nat)
  {
    && base == |st.withFilters| + |front|
    && |files| == base + |st.order| + |back|
    && (forall x :: 0 <= x < |front| ==> SameFile(files[|st.withFilters| + x], front[x]))
    && (forall x :: 0 <= x < |st.order| ==> SameFile(files[base + x], st.order[x]))
    && (forall x :: 0 <= x < |back| ==> SameFile(files[base + |st.order| + x], back[x]))
  }

  lemma ConcatIndex(w: seq<File>, f: seq<File>, o: seq<File>, b: seq<File>)
    ensures var all := w + (f + o + b);
            && |all| == |w| + |f| + |o| + |b|
            && (forall x :: 0 <= x < |f| ==> all[|w| + x] == f[x])
            && (forall x :: 0 <= x < |o| ==> all[|w| + |f| + x] == o[x])
            && (forall x :: 0 <= x < |b| ==> all[|w| + |f| + |o| + x] == b[x])
  {
  }

  lemma SortedIsSame(f: File, entries: seq<Entry>)
    ensures SameFile(SortFile(f, entries), f)
  {
    forall id: nat ensures id in SortFile(f, entries).entries <==> id in f.entries {
      SortFileMembers(f, entries, id);
    }
  }

  /** Each entry of a host is in the part of the list its kind belongs to. */
  lemma FinalIsAt(files: seq<File>, st: Placement, front: seq<File>, back: seq<File>, base: nat, entries: seq<Entry>, es: seq<nat>,
                  l: seq<Entry>, k: nat)
    requires HasParts(files, st, front, back, base)
    requires IsHostList(es, entries) && l == EntriesOf(entries, es) && k < |es| && l[k].match_ != Regex
    requires HostPlaced(l, es, st.elem, st.order)
    requires es[k] in st.elem ==> st.elem[es[k]] < |st.order| && es[k] in st.order[st.elem[es[k]]].entries
    requires l[k].match_ == Exact && es[k] !in st.elem ==> Occurs(front, es[k]) > 0
    requires l[k].match_ != Exact && es[k] !in st.elem ==> Occurs(back, es[k]) > 0
    ensures IsAt(files, es[k], l, k, FirstType(st.order), base, base + |st.order|)
  {
    var id := es[k];
    if l[k].match_ == Exact {
      assert !IsPriority(l, k);
      OccursWhere(front, id);
      var x :| 0 <= x < |front| && id in front[x].entries;
      assert SameFile(files[|st.withFilters| + x], front[x]);
      assert id in files[|st.withFilters| + x].entries;
    } else if IsPriority(l, k) {
      assert AtLevel(l, es, k, st.elem, st.order);
      assert SameFile(files[base + st.elem[id]], st.order[st.elem[id]]);
    } else {
      OccursWhere(back, id);
      var x :| 0 <= x < |back| && id in back[x].entries;
      assert SameFile(files[base + |st.order| + x], back[x]);
      assert id in files[base + |st.order| + x].entries;
    }
  }

  lemma HostIsAt(st: Placement, ms: seq<MatchType>, rawfiles: map<MatchType, seq<nat>>, entries: seq<Entry>, es: seq<nat>,
                 l: seq<Entry>, files: seq<File>, base: nat, k: nat)
    requires FilesOk(st.order, st.elem, entries, false) && KeptOk(rawfiles, st.elem, entries) && IsMatchOrder(ms)
    requires HasParts(files, st, Front(ms, rawfiles), Back(ms, rawfiles), base)
    requires IsHostList(es, entries) && l == EntriesOf(entries, es) && k < |es| && l[k].match_ != Regex && !HasFilter(l[k])
    requires HostPlaced(l, es, st.elem, st.order)
    ensures IsAt(files, es[k], l, k, FirstType(st.order), base, base + |st.order|)
  {
    assert entries[es[k]] == l[k];
    OccursFront(ms, rawfiles, st.elem, entries, es[k]);
    OccursBack(ms, rawfiles, st.elem, entries, es[k]);
    assert l[k].match_ in ms;
    FinalIsAt(files, st, Front(ms, rawfiles), Back(ms, rawfiles), base, entries, es, l, k);
  }

  lemma SortAllOrdered(unsorted: seq<File>, entries: seq<Entry>, x: nat)
    requires AllFit(unsorted, entries) && AllNamed(entries)
    requires x < |unsorted| && IsSplit(unsorted[x].match_)
    ensures AllFit(SortAll(unsorted, entries), entries) && InFileOrder(SortAll(unsorted, entries)[x], entries)
  {
    AllFitSorted(unsorted, entries);
    SortFileOrder(unsorted[x], entries);
  }

  lemma RestDistinct(files: seq<File>, st: Placement, front: seq<File>, back: seq<File>, base: nat, entries: seq<Entry>, ms: seq<MatchType>)
    requires HasParts(files, st, front, back, base) && TypesFrom(back, ms)
    ensures forall x, y :: base + |st.order| <= x < y < |files| ==> files[x].match_ != files[y].match_
  {
    var rest := base + |st.order|;
    forall x, y | rest <= x < y < |files| ensures files[x].match_ != files[y].match_ {
      assert SameFile(files[rest + (x - rest)], back[x - rest]) && SameFile(files[rest + (y - rest)], back[y - rest]);
    }
  }

  /** What the list is like for every host. */
  ghost predicate IsShaped(files: seq<File>, entries: seq<Entry>, rest: nat)
  {
    && AllFit(files, entries)
    && (forall id: nat :: id < |entries| ==> Occurs(files, id) == 1)
    && (forall x :: 0 <= x < |files| && IsSplit(files[x].match_) ==> InFileOrder(files[x], entries))
    && (forall x, y :: rest <= x < y < |files| ==> files[x].match_ != files[y].match_)
  }

  lemma ShapeOf(unsorted: seq<File>, files: seq<File>, entries: seq<Entry>, st: Placement, front: seq<File>, back: seq<File>,
                base: nat, ms: seq<MatchType>)
    requires files == SortAll(unsorted, entries) && AllFit(unsorted, entries) && AllNamed(entries)
    requires forall id: nat :: id < |entries| ==> Occurs(files, id) == 1
    requires HasParts(files, st, front, back, base) && TypesFrom(back, ms)
    ensures IsShaped(files, entries, base + |st.order|)
  {
    AllFitSorted(unsorted, entries);
    RestDistinct(files, st, front, back, base, entries, ms);
    forall x | 0 <= x < |files| && IsSplit(files[x].match_) ensures InFileOrder(files[x], entries) {
      SortAllOrdered(unsorted, entries, x);
    }
  }

  lemma PrecedenceFromView(files: seq<File>, entries: seq<Entry>, host: string, es: seq<nat>, l: seq<Entry>, first: MatchType,
                           base: nat, rest: nat)
    requires HostView(files, entries, host, es, l, first, base, rest)
    ensures PrecedenceHolds(files, entries, host, l, first)
  {
    if Nested(l) {
      NestedLongerFirst(l, first);
    }
    if LongerFirst(l, first) {
      LongerFirstSuffices(files, entries, host, es, l, first, base, rest);
    }
    if DistinctPaths(l) && forall k :: 0 <= k < |l| ==> IsSplit(l[k].match_) {
      LongestMatchIffLongerFirst(files, entries, host, es, l, first, base, rest);
    }
  }

  /** Every entry of the host is where its kind belongs. */
  ghost predicate HostAt(files: seq<File>, es: seq<nat>, l: seq<Entry>, first: MatchType, base: nat, rest: nat)
  {
    |l| == |es| && forall k :: 0 <= k < |es| ==> IsAt(files, es[k], l, k, first, base, rest)
  }

  lemma HostAllAt(st: Placement, ms: seq<MatchType>, rawfiles: map<MatchType, seq<nat>>, entries: seq<Entry>, es: seq<nat>,
                  l: seq<Entry>, files: seq<File>, base: nat)
    requires FilesOk(st.order, st.elem, entries, false) && KeptOk(rawfiles, st.elem, entries) && IsMatchOrder(ms)
    requires HasParts(files, st, Front(ms, rawfiles), Back(ms, rawfiles), base)
    requires HostDone(es, entries, st) && l == EntriesOf(entries, es) && IsServable(l)
    ensures HostAt(files, es, l, FirstType(st.order), base, base + |st.order|)
  {
    forall k | 0 <= k < |es| ensures IsAt(files, es[k], l, k, FirstType(st.order), base, base + |st.order|) {
      HostIsAt(st, ms, rawfiles, entries, es, l, files, base, k);
    }
  }

  lemma FinalPrecedence(rawhosts: map<string, seq<nat>>, entries: seq<Entry>, host: string, es: seq<nat>, l: seq<Entry>,
                        files: seq<File>, first: MatchType, base: nat, rest: nat)
    requires IsShaped(files, entries, rest) && HostAt(files, es, l, first, base, rest) && base <= rest && IsSplit(first)
    requires RawHostsOk(rawhosts, entries) && host in rawhosts
    requires es == rawhosts[host] && l == EntriesOf(entries, es) && IsServable(l) && Descending(l)
    ensures PrecedenceHolds(files, entries, host, l, first)
  {
    assert HostView(files, entries, host, es, l, first, base, rest);
    PrecedenceFromView(files, entries, host, es, l, first, base, rest);
  }

  lemma AssembledIsShaped(st: Placement, ms: seq<MatchType>, rawfiles: map<MatchType, seq<nat>>, entries: seq<Entry>,
                          unsorted: seq<File>, files: seq<File>, front: seq<File>, back: seq<File>, base: nat)
    requires IsMatchOrder(ms) && AllNamed(entries) && back == Back(ms, rawfiles)
    requires HasParts(files, st, front, back, base)
    requires files == SortAll(unsorted, entries) && AllFit(unsorted, entries)
    requires forall id: nat :: id < |entries| ==> Occurs(files, id) == 1
    ensures IsShaped(files, entries, base + |st.order|)
  {
    BackDistinct(ms, rawfiles);
    ShapeOf(unsorted, files, entries, st, front, back, base, ms);
  }

  lemma PartsOfAssembled(st: Placement, front: seq<File>, back: seq<File>, entries: seq<Entry>, files: seq<File>)
    requires files == SortAll(st.withFilters + (front + st.order + back), entries)
    ensures HasParts(files, st, front, back, |st.withFilters| + |front|)
  {
    var all := st.withFilters + (front + st.order + back);
    ConcatIndex(st.withFilters, front, st.order, back);
    forall x | 0 <= x < |all| ensures SameFile(files[x], all[x]) {
      SortedIsSame(all[x], entries);
    }
  }

  lemma FinalParts(st: Placement, ms: seq<MatchType>, rawfiles: map<MatchType, seq<nat>>, entries: seq<Entry>, files: seq<File>)
    returns (base: nat)
    requires files == SortAll(Assemble(st, ms, rawfiles), entries)
    ensures HasParts(files, st, Front(ms, rawfiles), Back(ms, rawfiles), base)
  {
    hide Front, Back, SortAll, HasParts;
    PartsOfAssembled(st, Front(ms, rawfiles), Back(ms, rawfiles), entries, files);
    base := |st.withFilters| + |Front(ms, rawfiles)|;
  }

  /** The list as a whole: every host at once. */
  lemma FinalPrecedences(st: Placement, ms: seq<MatchType>, rawfiles: map<MatchType, seq<nat>>, rawhosts: map<string, seq<nat>>,
                         entries: seq<Entry>, files: seq<File>, base: nat)
    requires FilesOk(st.order, st.elem, entries, false) && Alternates(st.order) && KeptOk(rawfiles, st.elem, entries) && IsMatchOrder(ms)
    requires HasParts(files, st, Front(ms, rawfiles), Back(ms, rawfiles), base) && IsShaped(files, entries, base + |st.order|)
    requires RawHostsOk(rawhosts, entries) && HostsBy(rawhosts, entries, st, {})
    ensures forall h :: h in rawhosts && IsServable(EntriesOf(entries, rawhosts[h])) ==>
              PrecedenceHolds(files, entries, h, EntriesOf(entries, rawhosts[h]), FirstType(st.order))
  {
    forall h | h in rawhosts && IsServable(EntriesOf(entries, rawhosts[h]))
      ensures PrecedenceHolds(files, entries, h, EntriesOf(entries, rawhosts[h]), FirstType(st.order))
    {
      var es := rawhosts[h];
      var l := EntriesOf(entries, es);
      HostAllAt(st, ms, rawfiles, entries, es, l, files, base);
      FinalPrecedence(rawhosts, entries, h, es, l, files, FirstType(st.order), base, base + |st.order|);
    }
  }

  // ---------------------------------------------------------------- the build as a function

  /** What the entries, the default files and the sorted lists of a map have to be. */
  ghost predicate Buildable(entries: seq<Entry>, rawfiles: map<MatchType, seq<nat>>, lists: map<string, seq<nat>>)
  {
    RawHostsOk(lists, entries) && ListsSorted(lists, entries) && KeptOk(rawfiles, map[], entries)
  }

  /** The match files, when the hosts are visited in the order of `hosts`. */
  function BuildFiles(entries: seq<Entry>, rawfiles: map<MatchType, seq<nat>>, ms: seq<MatchType>,
                      lists: map<string, seq<nat>>, hosts: seq<string>): seq<File>
    requires ListsOk(lists, entries) && forall k :: 0 <= k < |hosts| ==> hosts[k] in lists
  {
    var st := PlaceHosts(entries, lists, hosts);
    SortAll(Assemble(st, ms, Shrunken(rawfiles, st.elem)), entries)
  }

  /** Every entry is in exactly one file, of its own type and filter, in whatever order the hosts are visited. */
  lemma BuildConserves(entries: seq<Entry>, rawfiles: map<MatchType, seq<nat>>, ms: seq<MatchType>, lists: map<string, seq<nat>>,
                       hosts: seq<string>)
    requires Buildable(entries, rawfiles, lists) && IsMatchOrder(ms) && IsIteration(hosts, lists)
    ensures var files := BuildFiles(entries, rawfiles, ms, lists, hosts);
            AllFit(files, entries) && forall id: nat :: id < |entries| ==> Occurs(files, id) == 1
  {
    hide PlaceHosts, Sound, Assemble, Shrunken, KeptOk;
    var st := PlaceHosts(entries, lists, hosts);
    PlacedHosts(entries, lists, hosts, {});
    AllFilteredMoved(lists, entries, st);
    ShrunkenKept(rawfiles, st.elem, entries);
    FinalConserved(st, ms, Shrunken(rawfiles, st.elem), entries);
  }

  /** The type of the first priority file decides on every host; without priority files it does not matter. */
  ghost function FirstOr(f: Option<MatchType>): MatchType
  {
    if f.Some? then f.value else Begin
  }

  lemma BuildNames(entries: seq<Entry>, rawfiles: map<MatchType, seq<nat>>, ms: seq<MatchType>, lists: map<string, seq<nat>>,
                   hosts: seq<string>)
    requires Buildable(entries, rawfiles, lists) && IsMatchOrder(ms) && IsIteration(hosts, lists)
    ensures NamesDiffer(BuildFiles(entries, rawfiles, ms, lists, hosts))
  {
    hide PlaceHosts, Sound, Shrunken, Assemble;
    var st := PlaceHosts(entries, lists, hosts);
    PlacedHosts(entries, lists, hosts, {});
    AssembledNames(st, ms, Shrunken(rawfiles, st.elem), entries);
  }

  /** In whatever order the hosts are visited, exact and regex files are sorted, and the others too if hosts are well named. */
  lemma BuildOrders(entries: seq<Entry>, rawfiles: map<MatchType, seq<nat>>, ms: seq<MatchType>, lists: map<string, seq<nat>>,
                    hosts: seq<string>)
    requires Buildable(entries, rawfiles, lists) && IsMatchOrder(ms) && IsIteration(hosts, lists)
    ensures forall x :: 0 <= x < |BuildFiles(entries, rawfiles, ms, lists, hosts)|
                        && (AllNamed(entries) || !IsSplit(BuildFiles(entries, rawfiles, ms, lists, hosts)[x].match_)) ==>
                          IsOrdered(BuildFiles(entries, rawfiles, ms, lists, hosts)[x], entries)
  {
    hide PlaceHosts, Sound, Shrunken, KeptOk, Assemble, IsOrdered;
    var st := PlaceHosts(entries, lists, hosts);
    PlacedHosts(entries, lists, hosts, {});
    AllFilteredMoved(lists, entries, st);
    ShrunkenKept(rawfiles, st.elem, entries);
    var unsorted := Assemble(st, ms, Shrunken(rawfiles, st.elem));
    AssembledFit(st, ms, Shrunken(rawfiles, st.elem), entries);
    forall x | 0 <= x < |unsorted| && (AllNamed(entries) || !IsSplit(unsorted[x].match_))
      ensures IsOrdered(SortFile(unsorted[x], entries), entries)
    {
      SortFileIsOrdered(unsorted[x], entries);
    }
  }

  lemma BuildPrecedence(entries: seq<Entry>, rawfiles: map<MatchType, seq<nat>>, ms: seq<MatchType>, lists: map<string, seq<nat>>,
                        hosts: seq<string>)
    requires Buildable(entries, rawfiles, lists) && IsMatchOrder(ms) && IsIteration(hosts, lists) && AllNamed(entries)
    ensures forall h :: h in lists && IsServable(EntriesOf(entries, lists[h])) ==>
              PrecedenceHolds(BuildFiles(entries, rawfiles, ms, lists, hosts), entries, h, EntriesOf(entries, lists[h]),
                              FirstOr(FirstOf(entries, lists, hosts)))
  {
    hide PlaceHosts, Shrunken, KeptOk, FirstOf, PrecedenceHolds, IsServable, HasParts, IsShaped, FilesOk, HostsBy, AllNamed;
    var st := PlaceHosts(entries, lists, hosts);
    var raw := Shrunken(rawfiles, st.elem);
    var files := BuildFiles(entries, rawfiles, ms, lists, hosts);
    PlacedHosts(entries, lists, hosts, {});
    ShrunkenKept(rawfiles, st.elem, entries);
    var base := FinalParts(st, ms, raw, entries, files);
    BuildConserves(entries, rawfiles, ms, lists, hosts);
    AllFilteredMoved(lists, entries, st);
    AssembledFit(st, ms, raw, entries);
    AssembledIsShaped(st, ms, raw, entries, Assemble(st, ms, raw), files, Front(ms, raw), Back(ms, raw), base);
    FinalPrecedences(st, ms, raw, lists, entries, files, base);
  }

  // ---------------------------------------------------------------- every order of the hosts

  /** The hosts in some order, one of them first. */
  lemma IterationFrom(lists: map<string, seq<nat>>, h: string) returns (hosts: seq<string>)
    requires h in lists
    ensures IsIteration(hosts, lists) && hosts[0] == h
  {
    var rest := Enumerate(lists.Keys - {h});
    hosts := [h] + rest;
    forall k | 0 <= k < |rest| ensures rest[k] in lists && rest[k] != h {
      assert rest[k] in rest;
    }
  }

  lemma {:induction false} Enumerate(s: set<string>) returns (r: seq<string>)
    ensures forall x :: x in r <==> x in s
    ensures forall i, j :: 0 <= i < j < |r| ==> r[i] != r[j]
  {
    r := [];
    if s != {} {
      var x :| x in s;
      var rest := Enumerate(s - {x});
      r := rest + [x];
      assert forall i :: 0 <= i < |rest| ==> rest[i] in s - {x};
    }
  }

  /** A host without entries to move has its paths in order whatever comes first. */
  lemma NothingMoved(l: seq<Entry>, t: MatchType)
    requires FilterFree(l) && FirstMoved(l).None?
    ensures LongerFirst(l, t)
  {
    FirstIsPriority(l, |l|);
  }

  /** Only begin and prefix entries are moved. */
  lemma {:induction false} FirstIsSplit(l: seq<Entry>, i: nat)
    requires i <= |l|
    ensures FirstBy(l, i).Some? ==> IsSplit(FirstBy(l, i).value)
  {
    if i > 0 {
      FirstIsSplit(l, i - 1);
    }
  }

  /** Every request to a host gets its longest path, in whatever order the hosts are visited. */
  ghost predicate AlwaysLongest(entries: seq<Entry>, rawfiles: map<MatchType, seq<nat>>, ms: seq<MatchType>,
                                lists: map<string, seq<nat>>, h: string)
    requires ListsOk(lists, entries) && h in lists
  {
    forall hosts :: IsIteration(hosts, lists) ==>
                      AnswersLongest(BuildFiles(entries, rawfiles, ms, lists, hosts), entries, h, EntriesOf(entries, lists[h]))
  }

  /** What the visit of the hosts in one order means for a host. */
  lemma OneOrder(entries: seq<Entry>, rawfiles: map<MatchType, seq<nat>>, ms: seq<MatchType>, lists: map<string, seq<nat>>,
                 hosts: seq<string>, h: string)
    requires Buildable(entries, rawfiles, lists) && IsMatchOrder(ms) && IsIteration(hosts, lists) && AllNamed(entries)
    requires h in lists && IsServable(EntriesOf(entries, lists[h]))
    ensures var l, f := EntriesOf(entries, lists[h]), FirstOf(entries, lists, hosts);
            var longest := AnswersLongest(BuildFiles(entries, rawfiles, ms, lists, hosts), entries, h, l);
            && (f.None? ==> longest)
            && (f.Some? && LongerFirst(l, f.value) ==> longest)
            && (f.Some? && AllSplit(l) ==> (longest <==> LongerFirst(l, f.value)))
  {
    hide BuildFiles, AnswersLongest, LongerFirst, KeptOk, FirstMoved, AllNamed, Nested, DistinctPaths;
    var l, f := EntriesOf(entries, lists[h]), FirstOf(entries, lists, hosts);
    BuildPrecedence(entries, rawfiles, ms, lists, hosts);
    FirstOfCanBe(entries, lists, hosts);
    if f.None? {
      NothingMoved(l, Begin);
    }
  }

  /** Begin and prefix paths, all different. */
  ghost predicate AllSplit(l: seq<Entry>)
  {
    DistinctPaths(l) && forall k :: 0 <= k < |l| ==> IsSplit(l[k].match_)
  }

  /**
   A host gets its longest paths in every order of the hosts if and only if its paths are in order for each type that
   the first priority file can have: the types of the entries that the hosts of the map move first.
   */
  lemma AlwaysLongestIff(entries: seq<Entry>, rawfiles: map<MatchType, seq<nat>>, ms: seq<MatchType>, lists: map<string, seq<nat>>,
                         h: string)
    requires Buildable(entries, rawfiles, lists) && IsMatchOrder(ms) && AllNamed(entries)
    requires h in lists && IsServable(EntriesOf(entries, lists[h])) && AllSplit(EntriesOf(entries, lists[h]))
    ensures AlwaysLongest(entries, rawfiles, ms, lists, h) <==>
              forall t :: CanBeFirst(entries, lists, t) ==> LongerFirst(EntriesOf(entries, lists[h]), t)
  {
    hide BuildFiles, AnswersLongest, LongerFirst, KeptOk, FirstMoved, AllNamed, IsServable, AllSplit, ListsSorted;
    if AlwaysLongest(entries, rawfiles, ms, lists, h) {
      forall t | CanBeFirst(entries, lists, t) ensures LongerFirst(EntriesOf(entries, lists[h]), t) {
        var g :| g in lists && FirstMoved(EntriesOf(entries, lists[g])) == Some(t);
        var hosts := IterationFrom(lists, g);
        FirstOfHead(entries, lists, hosts);
        OneOrder(entries, rawfiles, ms, lists, hosts, h);
      }
    }
    if forall t :: CanBeFirst(entries, lists, t) ==> LongerFirst(EntriesOf(entries, lists[h]), t) {
      AlwaysLongestIf(entries, rawfiles, ms, lists, h);
    }
  }

  lemma AlwaysLongestIf(entries: seq<Entry>, rawfiles: map<MatchType, seq<nat>>, ms: seq<MatchType>, lists: map<string, seq<nat>>,
                        h: string)
    requires Buildable(entries, rawfiles, lists) && IsMatchOrder(ms) && AllNamed(entries)
    requires h in lists && IsServable(EntriesOf(entries, lists[h]))
    requires forall t :: CanBeFirst(entries, lists, t) ==> LongerFirst(EntriesOf(entries, lists[h]), t)
    ensures AlwaysLongest(entries, rawfiles, ms, lists, h)
  {
    hide BuildFiles, AnswersLongest, LongerFirst, KeptOk, FirstMoved, AllNamed, IsServable, AllSplit, ListsSorted, CanBeFirst;
    forall hosts | IsIteration(hosts, lists)
      ensures AnswersLongest(BuildFiles(entries, rawfiles, ms, lists, hosts), entries, h, EntriesOf(entries, lists[h]))
    {
      FirstOfCanBe(entries, lists, hosts);
      OneOrder(entries, rawfiles, ms, lists, hosts, h);
    }
  }

  /** The condition on a host alone: its paths are in order for both types. Then no other host matters. */
  lemma AlwaysLongestAlone(entries: seq<Entry>, rawfiles: map<MatchType, seq<nat>>, ms: seq<MatchType>, lists: map<string, seq<nat>>,
                           h: string)
    requires Buildable(entries, rawfiles, lists) && IsMatchOrder(ms) && AllNamed(entries)
    requires h in lists && IsServable(EntriesOf(entries, lists[h]))
    requires LongerFirst(EntriesOf(entries, lists[h]), Begin) && LongerFirst(EntriesOf(entries, lists[h]), Prefix)
    ensures AlwaysLongest(entries, rawfiles, ms, lists, h)
  {
    hide AlwaysLongest, LongerFirst, KeptOk, AllNamed, IsServable, ListsSorted, FirstBy;
    forall t | CanBeFirst(entries, lists, t) ensures LongerFirst(EntriesOf(entries, lists[h]), t) {
      var g :| g in lists && FirstMoved(EntriesOf(entries, lists[g])) == Some(t);
      FirstIsSplit(EntriesOf(entries, lists[g]), |lists[g]|);
    }
    AlwaysLongestIf(entries, rawfiles, ms, lists, h);
  }
}
