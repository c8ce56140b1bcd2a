/** What the other hosts of a map do to the paths of a host. */
module MatchHosts {
  import opened Model
  import opened Ordering
  import opened PathPrecedence
  import opened MatchPlacement
  import opened MatchAssembly
  import opened MatchLookup
  import opened MatchBuild

  /** The map is one that can be built, and the entries of the host are these. */
  ghost predicate MapWith(entries: seq<Entry>, rawfiles: map<MatchType, seq<nat>>, lists: map<string, seq<nat>>,
                          h: string, l: seq<Entry>)
  {
    && ListsOk(lists, entries) && Buildable(entries, rawfiles, lists) && AllNamed(entries)
    && h in lists && EntriesOf(entries, lists[h]) == l
  }

  /** Entries that are all of one host, and sorted as such. */
  ghost predicate OneHost(h: string, l: seq<Entry>)
  {
    && IsHostName(h) && Descending(l) && IsServable(l) && AllSplit(l)
    && (forall k :: 0 <= k < |l| ==> l[k].hostname == h && WellNamed(l[k]))
  }

  /** The longest paths of the host are found whatever the other hosts of the map are. */
  ghost predicate LongestInEveryMap(ms: seq<MatchType>, h: string, l: seq<Entry>)
  {
    forall entries, rawfiles, lists :: MapWith(entries, rawfiles, lists, h, l) ==> AlwaysLongest(entries, rawfiles, ms, lists, h)
  }

  // ---------------------------------------------------------------- a map with one host more

  function NameOtherThan(h: string): (g: string)
    ensures g != h && IsHostName(g)
  {
    if h == "g" then "gg" else "g"
  }

  function PlainEntry(host: string, path: string, m: MatchType): Entry
  {
    Entry(host, path, m, None, 0, BuildMapKey(m, host, path), "")
  }

  /** Two paths of another host, the longer of them of type t. */
  function OtherHost(h: string, t: MatchType): seq<Entry>
  {
    [PlainEntry(NameOtherThan(h), "/a", t), PlainEntry(NameOtherThan(h), "/", Other(t))]
  }

  function Joined(h: string, l: seq<Entry>, t: MatchType): seq<Entry>
  {
    l + OtherHost(h, t)
  }

  function From(start: nat, n: nat): (r: seq<nat>)
    ensures |r| == n && forall i :: 0 <= i < n ==> r[i] == start + i
  {
    seq(n, i requires 0 <= i < n => start + i)
  }

  function JoinedLists(h: string, l: seq<Entry>): map<string, seq<nat>>
  {
    map[h := From(0, |l|), NameOtherThan(h) := From(|l|, 2)]
  }

  /** The entries of a type among the first n. */
  function OfType(entries: seq<Entry>, m: MatchType, n: nat): seq<nat>
    requires n <= |entries|
  {
    if n == 0 then [] else OfType(entries, m, n - 1) + (if entries[n - 1].match_ == m then [n - 1] else [])
  }

  function RawFilesOf(entries: seq<Entry>): map<MatchType, seq<nat>>
  {
    map[Exact := OfType(entries, Exact, |entries|), Prefix := OfType(entries, Prefix, |entries|),
        Begin := OfType(entries, Begin, |entries|), Regex := OfType(entries, Regex, |entries|)]
  }

  lemma {:induction false} OfTypeMeans(entries: seq<Entry>, m: MatchType, n: nat)
    requires n <= |entries|
    ensures NoDup(OfType(entries, m, n))
    ensures forall id: nat :: id in OfType(entries, m, n) <==> id < n && entries[id].match_ == m
  {
    if n > 0 {
      OfTypeMeans(entries, m, n - 1);
      var before := OfType(entries, m, n - 1);
      assert forall k :: 0 <= k < |before| ==> before[k] in before;
    }
  }

  lemma RawFilesKept(entries: seq<Entry>)
    ensures KeptOk(RawFilesOf(entries), map[], entries)
  {
    var raw := RawFilesOf(entries);
    forall m: MatchType ensures m in raw && raw[m] == OfType(entries, m, |entries|) {
      match m { case Exact => case Prefix => case Begin => case Regex => }
    }
    forall m | m in raw ensures NoDup(raw[m]) && forall id: nat :: id in raw[m] <==> IsKept(id, m, map[], entries) {
      OfTypeMeans(entries, m, |entries|);
    }
  }

  /** Two ranges of entries, one for each of two hosts. */
  lemma TwoRanges(h: string, g: string, l: seq<Entry>, other: seq<Entry>)
    requires g != h
    requires (forall k :: 0 <= k < |l| ==> l[k].hostname == h) && (forall k :: 0 <= k < |other| ==> other[k].hostname == g)
    ensures RawHostsOk(map[h := From(0, |l|), g := From(|l|, |other|)], l + other)
    ensures EntriesOf(l + other, From(0, |l|)) == l && EntriesOf(l + other, From(|l|, |other|)) == other
  {
    var entries := l + other;
    var lists := map[h := From(0, |l|), g := From(|l|, |other|)];
    forall id: nat | id < |entries| ensures entries[id].hostname in lists && id in lists[entries[id].hostname] {
      if id < |l| {
        assert From(0, |l|)[id] == id;
      } else {
        assert From(|l|, |other|)[id - |l|] == id;
      }
    }
    forall h', k | h' in lists && 0 <= k < |lists[h']| ensures lists[h'][k] < |entries| && entries[lists[h'][k]].hostname == h' {
    }
  }

  lemma JoinedHosts(h: string, l: seq<Entry>, t: MatchType)
    requires OneHost(h, l) && IsSplit(t)
    ensures RawHostsOk(JoinedLists(h, l), Joined(h, l, t))
    ensures EntriesOf(Joined(h, l, t), JoinedLists(h, l)[h]) == l
    ensures EntriesOf(Joined(h, l, t), JoinedLists(h, l)[NameOtherThan(h)]) == OtherHost(h, t)
  {
    hide RawHostsOk, Descending, IsServable, AllSplit;
    TwoRanges(h, NameOtherThan(h), l, OtherHost(h, t));
  }

  lemma OtherHostOk(h: string, t: MatchType)
    requires IsSplit(t)
    ensures Descending(OtherHost(h, t)) && FirstMoved(OtherHost(h, t)) == Some(t)
    ensures forall k :: 0 <= k < 2 ==> WellNamed(OtherHost(h, t)[k])
  {
    var l := OtherHost(h, t);
    assert "/" == "/a"[..1];
    PrefixSortsFirst("/", "/a");
    assert PlainOver(l[0], l[1]);
    assert MovedIn(l, 0, 2);
    assert FirstBy(l, 0) == None;
    assert FirstBy(l, 1) == Some(t);
  }

  lemma JoinedIsMap(h: string, l: seq<Entry>, t: MatchType)
    requires OneHost(h, l) && IsSplit(t)
    ensures MapWith(Joined(h, l, t), RawFilesOf(Joined(h, l, t)), JoinedLists(h, l), h, l)
    ensures CanBeFirst(Joined(h, l, t), JoinedLists(h, l), t)
  {
    hide KeptOk, RawFilesOf, FirstMoved, IsServable, AllSplit;
    var entries, lists := Joined(h, l, t), JoinedLists(h, l);
    RawFilesKept(entries);
    JoinedHosts(h, l, t);
    OtherHostOk(h, t);
    forall g | g in lists ensures Descending(EntriesOf(entries, lists[g])) {
      assert g == h || g == NameOtherThan(h);
    }
    forall id | 0 <= id < |entries| ensures WellNamed(entries[id]) {
      assert id >= |l| ==> entries[id] == OtherHost(h, t)[id - |l|];
    }
  }

  /**
   The condition on a host alone: whatever the other hosts are, and in whatever order they are visited, its longest paths
   are found if and only if they are in order for both types of a first priority file.
   */
  lemma LongestInEveryMapIff(ms: seq<MatchType>, h: string, l: seq<Entry>)
    requires OneHost(h, l) && IsMatchOrder(ms)
    ensures LongestInEveryMap(ms, h, l) <==> LongerFirst(l, Begin) && LongerFirst(l, Prefix)
  {
    hide Buildable, AllNamed, CanBeFirst, AlwaysLongest, LongerFirst, IsServable, AllSplit, Joined, RawFilesOf, JoinedLists;
    if LongestInEveryMap(ms, h, l) {
      forall t | IsSplit(t) ensures LongerFirst(l, t) {
        var entries, lists := Joined(h, l, t), JoinedLists(h, l);
        JoinedIsMap(h, l, t);
        AlwaysLongestIff(entries, RawFilesOf(entries), ms, lists, h);
      }
    }
    if LongerFirst(l, Begin) && LongerFirst(l, Prefix) {
      forall entries, rawfiles, lists | MapWith(entries, rawfiles, lists, h, l)
        ensures AlwaysLongest(entries, rawfiles, ms, lists, h)
      {
        AlwaysLongestAlone(entries, rawfiles, ms, lists, h);
      }
    }
  }

  /**
   The same paths are found or not depending on another host: in this map the host gets its longest paths if it is visited
   first, and not if the other host is.
   */
  lemma DependsOnOtherHost(ms: seq<MatchType>)
    requires IsMatchOrder(ms)
    ensures var l, g := DEPENDENT, NameOtherThan("h");
            var entries, lists := Joined("h", l, Prefix), JoinedLists("h", l);
            && MapWith(entries, RawFilesOf(entries), lists, "h", l)
            && IsIteration(["h", g], lists) && IsIteration([g, "h"], lists)
            && AnswersLongest(BuildFiles(entries, RawFilesOf(entries), ms, lists, ["h", g]), entries, "h", l)
            && !AnswersLongest(BuildFiles(entries, RawFilesOf(entries), ms, lists, [g, "h"]), entries, "h", l)
  {
    hide Buildable, AllNamed, AnswersLongest, BuildFiles, LongerFirst, IsServable, AllSplit, RawFilesOf, FirstMoved;
    var l, g := DEPENDENT, NameOtherThan("h");
    var entries, lists := Joined("h", l, Prefix), JoinedLists("h", l);
    DependentIsHost();
    JoinedIsMap("h", l, Prefix);
    JoinedHosts("h", l, Prefix);
    OtherHostOk("h", Prefix);
    DependentFirst();
    FirstOfHead(entries, lists, ["h", g]);
    FirstOfHead(entries, lists, [g, "h"]);
    OneOrder(entries, RawFilesOf(entries), ms, lists, ["h", g], "h");
    OneOrder(entries, RawFilesOf(entries), ms, lists, [g, "h"], "h");
    DependentInOrder();
    DependentNotInOrder();
  }

  lemma DependentFirst()
    ensures FirstMoved(DEPENDENT) == Some(Begin)
  {
    var l := DEPENDENT;
    DependentOverlaps();
    assert PlainOver(l[0], l[1]);
    assert MovedIn(l, 0, 7);
    FirstStays(l, 1, 7);
  }

  lemma {:induction false} FirstStays(l: seq<Entry>, i: nat, j: nat)
    requires i <= j <= |l| && FirstBy(l, i).Some?
    ensures FirstBy(l, j) == FirstBy(l, i)
  {
    if i < j {
      FirstStays(l, i, j - 1);
    }
  }

  lemma DependentIsHost()
    ensures OneHost("h", DEPENDENT)
  {
    hide WellNamed, LowerCase, Descending, DistinctPaths;
    DependentDescends();
    DependentDistinct();
    forall k | 0 <= k < |DEPENDENT| ensures WellNamed(DEPENDENT[k]) && LowerCase(DEPENDENT[k]) {
      PlainNamed(DEPENDENT[k].path, DEPENDENT[k].match_);
    }
  }

  lemma PlainNamed(path: string, m: MatchType)
    requires IsSplit(m) && path != "" && forall i :: 0 <= i < |path| ==> !('A' <= path[i] <= 'Z')
    ensures WellNamed(Plain(path, m)) && LowerCase(Plain(path, m))
  {
  }

  lemma DependentDistinct()
    ensures DistinctPaths(DEPENDENT)
  {
    var l := DEPENDENT;
    forall i, j | 0 <= i < j < |l| ensures l[i].path != l[j].path {
      if |l[i].path| == |l[j].path| {
        assert l[i].path[3] != l[j].path[3];
      }
    }
  }

  lemma DependentDescends()
    ensures Descending(DEPENDENT)
  {
    hide LexLe;
    var l := DEPENDENT;
    PrefixSortsFirst(l[1].path, l[0].path);
    PrefixSortsFirst(l[2].path, l[1].path);
    PrefixSortsFirst(l[4].path, l[3].path);
    PrefixSortsFirst(l[5].path, l[4].path);
    PrefixSortsFirst(l[6].path, l[5].path);
    assert LexLe(l[3].path, l[2].path) by {
      Below(l[3].path, l[2].path, 3);
    }
    forall i | 0 <= i < 6 ensures LexLe(l[i + 1].path, l[i].path) {
    }
    forall i, j | 0 <= i < j < |l| ensures LexLe(l[j].path, l[i].path) {
      Steps(l, i, j);
    }
  }

  /** Strings compare as their first different characters do. */
  lemma {:induction false} Below(a: string, b: string, n: nat)
    requires n < |a| && n < |b| && a[..n] == b[..n] && a[n] < b[n]
    ensures LexLe(a, b)
  {
    if n > 0 {
      assert a[0] == a[..n][0] == b[..n][0] == b[0];
      assert a[1..][..n - 1] == a[..n][1..] == b[..n][1..] == b[1..][..n - 1];
      Below(a[1..], b[1..], n - 1);
    }
  }

  lemma {:induction false} Steps(l: seq<Entry>, i: nat, j: nat)
    requires i < j < |l| && forall k :: 0 <= k < |l| - 1 ==> LexLe(l[k + 1].path, l[k].path)
    ensures LexLe(l[j].path, l[i].path)
  {
    assert LexLe(l[(j - 1) + 1].path, l[j - 1].path);
    if i < j - 1 {
      Steps(l, i, j - 1);
      LexTransitive(l[j].path, l[j - 1].path, l[i].path);
    }
  }

  /** The six sibling paths get a wrong answer in every map that has them, in whatever order the hosts are visited. */
  lemma SiblingsAlwaysWrong(entries: seq<Entry>, rawfiles: map<MatchType, seq<nat>>, ms: seq<MatchType>, lists: map<string, seq<nat>>,
                            hosts: seq<string>)
    requires MapWith(entries, rawfiles, lists, "h", SIBLINGS) && IsMatchOrder(ms) && IsIteration(hosts, lists)
    ensures !AnswersLongest(BuildFiles(entries, rawfiles, ms, lists, hosts), entries, "h", SIBLINGS)
  {
    hide Buildable, AllNamed, AnswersLongest, BuildFiles, LongerFirst, IsServable, DistinctPaths, FirstMoved, FirstOf;
    SiblingsServable();
    SiblingsAreSplit();
    SiblingsFirst();
    FirstOfCanBe(entries, lists, hosts);
    OneOrder(entries, rawfiles, ms, lists, hosts, "h");
    var f := FirstOf(entries, lists, hosts);
    if f.Some? {
      CanBeFirstIsSplit(entries, lists, f.value);
      SiblingsBreakOrder(f.value);
    }
  }

  lemma CanBeFirstIsSplit(entries: seq<Entry>, lists: map<string, seq<nat>>, t: MatchType)
    requires ListsOk(lists, entries) && CanBeFirst(entries, lists, t)
    ensures IsSplit(t)
  {
    hide FirstBy;
    var g :| g in lists && FirstMoved(EntriesOf(entries, lists[g])) == Some(t);
    FirstIsSplit(EntriesOf(entries, lists[g]), |lists[g]|);
  }

  lemma SiblingsFirst()
    ensures FirstMoved(SIBLINGS).Some?
  {
    SiblingOverlaps();
    assert PlainOver(SIBLINGS[0], SIBLINGS[1]);
    assert MovedIn(SIBLINGS, 0, 6);
    FirstStays(SIBLINGS, 1, 6);
  }

  lemma SiblingsServable()
    ensures IsServable(SIBLINGS)
  {
    hide WellNamed, LowerCase;
    forall k | 0 <= k < |SIBLINGS| ensures LowerCase(SIBLINGS[k]) {
      PlainNamed(SIBLINGS[k].path, SIBLINGS[k].match_);
    }
  }
}
