/**
 The order inside a match file, HAProxy's search over the files, and the theorem that
 the search answers with the longest configured path exactly when `LongerFirst` holds.
 */
module MatchLookup {
  import opened Model
  import opened Ordering
  import opened PathPrecedence
  import opened MatchPlacement
  import opened MatchAssembly

  // ---------------------------------------------------------------- order inside a file

  function BuildMapKey(m: MatchType, hostname: string, path: string): string
  {
    var h := if m == Regex && hostname != "" && path != "" then
               if hostname[|hostname| - 1] == '$' then hostname[..|hostname| - 1] else hostname + "[^/]*"
             else hostname;
    if h != "" && path != "" then h + "#" + path else h + path
  }

  /** The comparison of each kind of file. */
  predicate EntryLess(m: MatchType, v1: Entry, v2: Entry)
  {
    match m
    case Exact =>
      if v1.key == v2.key then v1.order < v2.order else LexLess(v1.key, v2.key)
    case Regex =>
      if |v1.key| != |v2.key| then |v1.key| > |v2.key|
      else if v1.key == v2.key then v1.order < v2.order
      else LexLess(v1.key, v2.key)
    case _ =>
      if v1.hostname == v2.hostname then
        if v1.path == v2.path then v1.order < v2.order else LexLess(v2.path, v1.path)
      else LexLess(v1.key, v2.key)
  }

  predicate IdLe(m: MatchType, entries: seq<Entry>, a: nat, b: nat)
  {
    a < |entries| && b < |entries| && !EntryLess(m, entries[b], entries[a])
  }

  function Comparison(m: MatchType, entries: seq<Entry>): (nat, nat) -> bool
  {
    (a: nat, b: nat) => IdLe(m, entries, a, b)
  }

  function SortFile(f: File, entries: seq<Entry>): (r: File)
    ensures r.match_ == f.match_ && r.headers == f.headers && r.priority == f.priority
    ensures multiset(r.entries) == multiset(f.entries)
  {
    f.(entries := Sort(f.entries, Comparison(f.match_, entries)))
  }

  /** Characters of host names sort after the separator of the map key. */
  predicate IsHostName(h: string)
  {
    h != "" && forall i :: 0 <= i < |h| ==> h[i] > '#'
  }

  predicate WellNamed(e: Entry)
  {
    IsHostName(e.hostname) && e.key == BuildMapKey(e.match_, e.hostname, e.path)
  }

  predicate IsKeyTail(s: string)
  {
    s == [] || s[0] == '#'
  }

  /** Keys of different hosts compare as the host names do. */
  lemma {:induction false} KeyOrder(h1: string, s1: string, h2: string, s2: string)
    requires forall i :: 0 <= i < |h1| ==> h1[i] > '#'
    requires forall i :: 0 <= i < |h2| ==> h2[i] > '#'
    requires h1 != h2 && IsKeyTail(s1) && IsKeyTail(s2)
    ensures h1 + s1 != h2 + s2
    ensures LexLe(h1 + s1, h2 + s2) <==> LexLe(h1, h2)
  {
    if h1 != [] && h2 != [] {
      assert (h1 + s1)[1..] == h1[1..] + s1 && (h2 + s2)[1..] == h2[1..] + s2;
      assert h1 == [h1[0]] + h1[1..] && h2 == [h2[0]] + h2[1..];
      if h1[0] == h2[0] {
        KeyOrder(h1[1..], s1, h2[1..], s2);
      } else {
        assert (h1 + s1)[0] != (h2 + s2)[0];
      }
    } else if h1 == [] {
      assert h1 + s1 == s1 && (h2 + s2)[0] == h2[0];
    } else {
      assert h2 + s2 == s2 && (h1 + s1)[0] == h1[0];
    }
  }

  lemma SplitKey(e: Entry) returns (tail: string)
    requires WellNamed(e) && IsSplit(e.match_)
    ensures e.key == e.hostname + tail && IsKeyTail(tail)
  {
    tail := if e.path == "" then "" else "#" + e.path;
  }

  /** The order of a begin or prefix file, without the keys. */
  predicate HostThenPath(v1: Entry, v2: Entry)
  {
    if v1.hostname == v2.hostname then
      if v1.path == v2.path then v1.order <= v2.order else LexLess(v2.path, v1.path)
    else LexLess(v1.hostname, v2.hostname)
  }

  lemma LessIsHostThenPath(m: MatchType, v1: Entry, v2: Entry)
    requires IsSplit(m) && v1.match_ == m && v2.match_ == m && WellNamed(v1) && WellNamed(v2)
    ensures !EntryLess(m, v2, v1) <==> HostThenPath(v1, v2)
  {
    if v1.hostname == v2.hostname {
      LexTotal(v1.path, v2.path);
      if LexLe(v1.path, v2.path) && LexLe(v2.path, v1.path) {
        LexAntisymmetric(v1.path, v2.path);
      }
    } else {
      var t1 := SplitKey(v1);
      var t2 := SplitKey(v2);
      KeyOrder(v2.hostname, t2, v1.hostname, t1);
      LexTotal(v1.hostname, v2.hostname);
      if LexLe(v1.hostname, v2.hostname) && LexLe(v2.hostname, v1.hostname) {
        LexAntisymmetric(v1.hostname, v2.hostname);
      }
    }
  }

  lemma StrictTransitive(a: string, b: string, c: string)
    requires LexLess(a, b) && LexLess(b, c)
    ensures LexLess(a, c)
  {
    LexTransitive(a, b, c);
    if a == c {
      LexAntisymmetric(a, b);
    }
  }

  lemma HostThenPathOrder(a: Entry, b: Entry, c: Entry)
    ensures HostThenPath(a, b) || HostThenPath(b, a)
    ensures HostThenPath(a, b) && HostThenPath(b, c) ==> HostThenPath(a, c)
  {
    LexTotal(a.hostname, b.hostname);
    LexTotal(a.path, b.path);
    if HostThenPath(a, b) && HostThenPath(b, c) {
      if a.hostname != b.hostname && b.hostname != c.hostname {
        StrictTransitive(a.hostname, b.hostname, c.hostname);
      }
      if a.hostname == b.hostname == c.hostname && a.path != b.path && b.path != c.path {
        StrictTransitive(c.path, b.path, a.path);
      }
    }
  }

  /** Within a sorted file the paths of one host are in descending order. */
  ghost predicate InFileOrder(f: File, entries: seq<Entry>)
    requires forall p :: 0 <= p < |f.entries| ==> f.entries[p] < |entries|
  {
    forall p, p' :: 0 <= p < p' < |f.entries| && entries[f.entries[p]].hostname == entries[f.entries[p']].hostname ==>
                      LexLe(entries[f.entries[p']].path, entries[f.entries[p]].path)
  }

  lemma ComparisonIsPreorder(m: MatchType, entries: seq<Entry>, d: set<nat>)
    requires IsSplit(m)
    requires forall x :: x in d ==> x < |entries| && entries[x].match_ == m && WellNamed(entries[x])
    ensures PreorderOn(d, Comparison(m, entries))
  {
    var le := Comparison(m, entries);
    forall x, y | x in d && y in d ensures le(x, y) || le(y, x) {
      LessIsHostThenPath(m, entries[x], entries[y]);
      LessIsHostThenPath(m, entries[y], entries[x]);
      HostThenPathOrder(entries[x], entries[y], entries[x]);
    }
    forall x, y, z | x in d && y in d && z in d && le(x, y) && le(y, z) ensures le(x, z) {
      LessIsHostThenPath(m, entries[x], entries[y]);
      LessIsHostThenPath(m, entries[y], entries[z]);
      LessIsHostThenPath(m, entries[x], entries[z]);
      HostThenPathOrder(entries[x], entries[y], entries[z]);
    }
  }

  lemma SortFileMembers(f: File, entries: seq<Entry>, id: nat)
    ensures id in SortFile(f, entries).entries <==> id in f.entries
  {
    assert id in multiset(SortFile(f, entries).entries) <==> id in multiset(f.entries);
  }

  lemma SortFileOrder(f: File, entries: seq<Entry>)
    requires IsSplit(f.match_)
    requires forall p :: 0 <= p < |f.entries| ==> f.entries[p] < |entries| && entries[f.entries[p]].match_ == f.match_
    requires forall id :: 0 <= id < |entries| ==> WellNamed(entries[id])
    ensures forall p :: 0 <= p < |SortFile(f, entries).entries| ==> SortFile(f, entries).entries[p] < |entries|
    ensures InFileOrder(SortFile(f, entries), entries)
  {
    var d := set id | id in f.entries;
    var r := SortFile(f, entries).entries;
    ComparisonIsPreorder(f.match_, entries, d);
    SortSortedOn(d, f.entries, Comparison(f.match_, entries));
    forall p | 0 <= p < |r| ensures r[p] < |entries| && entries[r[p]].match_ == f.match_ {
      SortFileMembers(f, entries, r[p]);
    }
    forall p, p' | 0 <= p < p' < |r| && entries[r[p]].hostname == entries[r[p']].hostname
      ensures LexLe(entries[r[p']].path, entries[r[p]].path)
    {
      assert Comparison(f.match_, entries)(r[p], r[p']);
      LessIsHostThenPath(f.match_, entries[r[p]], entries[r[p']]);
      LexReflexive(entries[r[p]].path);
    }
  }

  // ---------------------------------------------------------------- the order of every kind of file

  /** Ascending keys, and equal keys by arrival. */
  ghost predicate ByKey(a: Entry, b: Entry)
  {
    (a.key != b.key && LexLe(a.key, b.key)) || (a.key == b.key && a.order <= b.order)
  }

  /**
   `a` may stand before `b` in a file of this type: exact entries by key; regexes from the longest key to the shortest, and
   then by key; begin and prefix entries by host, from the greatest path to the least, and then by arrival.
   */
  ghost predicate MayPrecede(m: MatchType, a: Entry, b: Entry)
  {
    match m
    case Exact => ByKey(a, b)
    case Regex => |a.key| >= |b.key| && (|a.key| == |b.key| ==> ByKey(a, b))
    case _ =>
      || (a.hostname != b.hostname && LexLe(a.hostname, b.hostname))
      || (a.hostname == b.hostname && a.path != b.path && LexLe(b.path, a.path))
      || (a.hostname == b.hostname && a.path == b.path && a.order <= b.order)
  }

  ghost predicate IsOrdered(f: File, entries: seq<Entry>)
  {
    forall p, p' :: 0 <= p < p' < |f.entries| ==>
                      && f.entries[p] < |entries| && f.entries[p'] < |entries|
                      && MayPrecede(f.match_, entries[f.entries[p]], entries[f.entries[p']])
  }

  /** The entries of a sorted file that has begin or prefix entries are named as `addTarget` does. */
  ghost predicate NamedIfSplit(m: MatchType, e: Entry)
  {
    IsSplit(m) ==> e.match_ == m && WellNamed(e)
  }

  lemma LessIsMayPrecede(m: MatchType, a: Entry, b: Entry)
    requires NamedIfSplit(m, a) && NamedIfSplit(m, b)
    ensures !EntryLess(m, b, a) <==> MayPrecede(m, a, b)
  {
    if IsSplit(m) {
      LessIsHostThenPath(m, a, b);
    } else {
      LexTotal(a.key, b.key);
      if LexLe(a.key, b.key) && LexLe(b.key, a.key) {
        LexAntisymmetric(a.key, b.key);
      }
    }
  }

  lemma MayPrecedeOrder(m: MatchType, a: Entry, b: Entry, c: Entry)
    ensures MayPrecede(m, a, b) || MayPrecede(m, b, a)
    ensures MayPrecede(m, a, b) && MayPrecede(m, b, c) ==> MayPrecede(m, a, c)
  {
    if IsSplit(m) {
      HostThenPathOrder(a, b, c);
    } else {
      LexTotal(a.key, b.key);
      if a.key != b.key && b.key != c.key && LexLe(a.key, b.key) && LexLe(b.key, c.key) {
        StrictTransitive(a.key, b.key, c.key);
      }
    }
  }

  /** The comparison of a file is that of its kind on these entries. */
  ghost predicate Compares(m: MatchType, entries: seq<Entry>, d: set<nat>, le: (nat, nat) -> bool)
  {
    && (forall x :: x in d ==> x < |entries|)
    && (forall x, y :: x in d && y in d ==> (le(x, y) <==> MayPrecede(m, entries[x], entries[y])))
  }

  lemma ComparesOrder(m: MatchType, entries: seq<Entry>, d: set<nat>, le: (nat, nat) -> bool)
    requires Compares(m, entries, d, le)
    ensures PreorderOn(d, le)
  {
    hide MayPrecede;
    forall x, y | x in d && y in d ensures le(x, y) || le(y, x) {
      MayPrecedeOrder(m, entries[x], entries[y], entries[x]);
    }
    forall x, y, z | x in d && y in d && z in d && le(x, y) && le(y, z) ensures le(x, z) {
      MayPrecedeOrder(m, entries[x], entries[y], entries[z]);
    }
  }

  lemma FileCompares(f: File, entries: seq<Entry>, d: set<nat>)
    requires forall x :: x in d ==> x < |entries| && NamedIfSplit(f.match_, entries[x])
    ensures Compares(f.match_, entries, d, Comparison(f.match_, entries))
  {
    hide MayPrecede, EntryLess, NamedIfSplit;
    forall x, y | x in d && y in d
      ensures Comparison(f.match_, entries)(x, y) <==> MayPrecede(f.match_, entries[x], entries[y])
    {
      LessIsMayPrecede(f.match_, entries[x], entries[y]);
    }
  }

  /** Every kind of file is sorted as it should be. */
  lemma SortFileIsOrdered(f: File, entries: seq<Entry>)
    requires forall p :: 0 <= p < |f.entries| ==> f.entries[p] < |entries| && NamedIfSplit(f.match_, entries[f.entries[p]])
    ensures IsOrdered(SortFile(f, entries), entries)
  {
    hide MayPrecede, NamedIfSplit, PreorderOn, Comparison;
    var d := set id | id in f.entries;
    var r := SortFile(f, entries).entries;
    var le := Comparison(f.match_, entries);
    FileCompares(f, entries, d);
    ComparesOrder(f.match_, entries, d, le);
    SortSortedOn(d, f.entries, le);
    forall p | 0 <= p < |r| ensures r[p] in d {
      SortFileMembers(f, entries, r[p]);
    }
    forall p, p' | 0 <= p < p' < |r| ensures MayPrecede(f.match_, entries[r[p]], entries[r[p']]) {
      assert le(r[p], r[p']);
    }
  }

  // ---------------------------------------------------------------- HAProxy's search

  predicate Matches(e: Entry, host: string, path: string)
  {
    e.hostname == host && !HasFilter(e) && PathMatches(e, path)
  }

  predicate Hits(entries: seq<Entry>, id: nat, host: string, path: string)
  {
    id < |entries| && Matches(entries[id], host, path)
  }

  function LookupIn(ids: seq<nat>, entries: seq<Entry>, host: string, path: string): Option<nat>
  {
    if ids == [] then None
    else if Hits(entries, ids[0], host, path) then Some(ids[0])
    else LookupIn(ids[1..], entries, host, path)
  }

  /** The files in order, and the lines of each file in order: the first that matches answers. */
  function Lookup(files: seq<File>, entries: seq<Entry>, host: string, path: string): Option<nat>
  {
    if files == [] then None
    else
      var r := LookupIn(files[0].entries, entries, host, path);
      if r.Some? then r else Lookup(files[1..], entries, host, path)
  }

  lemma {:induction false} LookupInFirst(ids: seq<nat>, entries: seq<Entry>, host: string, path: string) returns (p: nat)
    ensures p <= |ids| && forall q :: 0 <= q < p ==> !Hits(entries, ids[q], host, path)
    ensures LookupIn(ids, entries, host, path) ==
            if p < |ids| then Some(ids[p]) else None
    ensures p < |ids| ==> Hits(entries, ids[p], host, path)
  {
    if ids == [] {
      p := 0;
    } else if Hits(entries, ids[0], host, path) {
      p := 0;
    } else {
      var q := LookupInFirst(ids[1..], entries, host, path);
      p := q + 1;
      assert forall k :: 0 < k < p ==> ids[k] == ids[1..][k - 1];
    }
  }

  ghost predicate NoHitBefore(files: seq<File>, entries: seq<Entry>, host: string, path: string, x: nat)
    requires x <= |files|
  {
    forall y, q :: 0 <= y < x && 0 <= q < |files[y].entries| ==> !Hits(entries, files[y].entries[q], host, path)
  }

  /** The answer is the hit with nothing before it. */
  lemma {:induction false} LookupFirst(files: seq<File>, entries: seq<Entry>, host: string, path: string) returns (x: nat, p: nat)
    ensures x <= |files| && NoHitBefore(files, entries, host, path, x)
    ensures x == |files| ==> Lookup(files, entries, host, path) == None
    ensures x < |files| ==>
              && p < |files[x].entries|
              && Lookup(files, entries, host, path) == Some(files[x].entries[p])
              && Hits(entries, files[x].entries[p], host, path)
              && forall q :: 0 <= q < p ==> !Hits(entries, files[x].entries[q], host, path)
  {
    x, p := 0, 0;
    if files != [] {
      p := LookupInFirst(files[0].entries, entries, host, path);
      if p == |files[0].entries| {
        var y, q := LookupFirst(files[1..], entries, host, path);
        x, p := y + 1, q;
        assert forall k :: 0 < k < |files| ==> files[k] == files[1..][k - 1];
      }
    }
  }

  // ---------------------------------------------------------------- the theorem

  /**
   The files as seen by one host: each of its entries is in one file, the exact ones before
   position `base`, the priority ones at `base` plus their level, the others from `rest` on.
   */
  ghost predicate HostView(files: seq<File>, entries: seq<Entry>, host: string, es: seq<nat>, l: seq<Entry>,
                           first: MatchType, base: nat, rest: nat)
  {
    && |l| == |es| && IsSplit(first) && base <= rest
    && (forall k :: 0 <= k < |es| ==> es[k] < |entries| && entries[es[k]] == l[k] && l[k].hostname == host)
    && (forall id: nat :: id < |entries| && entries[id].hostname == host ==> id in es)
    && FilterFree(l) && Descending(l)
    && (forall k :: 0 <= k < |l| ==> l[k].match_ != Regex && LowerCase(l[k]))
    && AllFit(files, entries)
    && (forall k :: 0 <= k < |es| ==> Occurs(files, es[k]) == 1)
    && (forall x :: 0 <= x < |files| && IsSplit(files[x].match_) ==> InFileOrder(files[x], entries))
    && (forall x, y :: rest <= x < y < |files| ==> files[x].match_ != files[y].match_)
    && (forall k :: 0 <= k < |es| ==> IsAt(files, es[k], l, k, first, base, rest))
  }

  ghost predicate IsAt(files: seq<File>, id: nat, l: seq<Entry>, k: nat, first: MatchType, base: nat, rest: nat)
    requires k < |l|
  {
    if l[k].match_ == Exact then exists x :: 0 <= x < base && x < |files| && id in files[x].entries
    else if IsPriority(l, k) then
      base + Level(l, k, first) < rest <= |files| && id in files[base + Level(l, k, first)].entries
    else exists x :: rest <= x < |files| && id in files[x].entries
  }

  ghost predicate IsLongest(l: seq<Entry>, e: Entry, path: string)
  {
    forall k :: 0 <= k < |l| && PathMatches(l[k], path) ==> |l[k].path| <= |e.path|
  }

  /** Every request to the host is answered by the longest path that matches it. */
  ghost predicate AnswersLongest(files: seq<File>, entries: seq<Entry>, host: string, l: seq<Entry>)
  {
    forall path :: match Lookup(files, entries, host, path)
                   case None => forall k :: 0 <= k < |l| ==> !PathMatches(l[k], path)
                   case Some(id) => id < |entries| && IsLongest(l, entries[id], path)
  }

  lemma SamePlace(files: seq<File>, id: nat, x: nat, y: nat)
    requires Occurs(files, id) == 1 && x < |files| && y < |files|
    requires id in files[x].entries && id in files[y].entries
    ensures x == y
  {
    if x < y {
      OccursTwice(files, id, x, y);
    } else if y < x {
      OccursTwice(files, id, y, x);
    }
  }

  /** What two entries of a host and a request need for the comparison of their places. */
  ghost predicate LongerPair(files: seq<File>, es: seq<nat>, l: seq<Entry>, first: MatchType, base: nat, rest: nat,
                             path: string, a: nat, b: nat)
  {
    && |l| == |es| && a < |l| && b < |l| && base <= rest
    && IsAt(files, es[a], l, a, first, base, rest) && IsAt(files, es[b], l, b, first, base, rest)
    && Occurs(files, es[b]) == 1
    && LowerCase(l[a]) && LowerCase(l[b]) && l[a].match_ != Regex && l[b].match_ != Regex
    && PathMatches(l[a], path) && PathMatches(l[b], path) && |l[a].path| > |l[b].path|
  }

  /** A longer matching path that was not left in the default files is in an earlier file, or in the same one. */
  lemma LongerIsEarlier(files: seq<File>, es: seq<nat>, l: seq<Entry>, first: MatchType,
                        base: nat, rest: nat, path: string, a: nat, b: nat, y: nat) returns (x: nat)
    requires LongerPair(files, es, l, first, base, rest, path, a, b)
    requires y < |files| && es[b] in files[y].entries
    requires l[a].match_ == Exact || IsPriority(l, a)
    requires l[a].match_ != Exact && IsPriority(l, b) ==> Level(l, a, first) <= Level(l, b, first)
    ensures x <= y && es[a] in files[x].entries
  {
    ShorterThanRequest(l[a], path);
    assert l[b].match_ != Exact;
    if l[a].match_ == Exact {
      x :| 0 <= x < base && x < |files| && es[a] in files[x].entries;
    } else {
      x := base + Level(l, a, first);
    }
    EarlierThanSplit(files, es[b], l, b, first, base, rest, x, y);
  }

  lemma LongerIsHigher(l: seq<Entry>, first: MatchType, a: nat, b: nat)
    requires Descending(l) && LongerFirst(l, first) && IsSplit(first)
    requires forall k :: 0 <= k < |l| ==> LowerCase(l[k])
    requires a < |l| && b < |l| && IsSplit(l[a].match_) && IsSplit(l[b].match_) && IsPriority(l, b)
    requires l[b].path <= l[a].path && |l[a].path| > |l[b].path| && PathMatches(l[b], l[a].path)
    ensures IsPriority(l, a) && Level(l, a, first) <= Level(l, b, first)
  {
    PriorityUpwards(l, a, b);
    if l[a].match_ == l[b].match_ {
      SameTypeLevels(l, a, b, first);
    } else {
      assert Overlaps(l[a], l[b]);
    }
  }

  lemma ShorterThanRequest(e: Entry, path: string)
    requires PathMatches(e, path)
    ensures |e.path| <= |path|
  {
  }

  lemma EarlierThanSplit(files: seq<File>, id: nat, l: seq<Entry>, b: nat, first: MatchType, base: nat, rest: nat, x: nat, y: nat)
    requires b < |l| && l[b].match_ != Exact && IsAt(files, id, l, b, first, base, rest)
    requires Occurs(files, id) == 1 && y < |files| && id in files[y].entries
    requires x < if IsPriority(l, b) then base + Level(l, b, first) + 1 else rest
    ensures x <= y
  {
    if IsPriority(l, b) {
      SamePlace(files, id, y, base + Level(l, b, first));
    } else {
      var z :| rest <= z < |files| && id in files[z].entries;
      SamePlace(files, id, y, z);
    }
  }

  /** Two nested paths that both stay in default files are of one type, so in one file. */
  lemma SameDefault(files: seq<File>, entries: seq<Entry>, host: string, es: seq<nat>, l: seq<Entry>, first: MatchType,
                    base: nat, rest: nat, a: nat, b: nat, y: nat) returns (x: nat)
    requires HostView(files, entries, host, es, l, first, base, rest)
    requires a < |l| && b < |l| && IsSplit(l[a].match_) && IsSplit(l[b].match_)
    requires l[b].path <= l[a].path && |l[a].path| > |l[b].path|
    requires !IsPriority(l, a) && !IsPriority(l, b)
    requires y < |files| && es[b] in files[y].entries
    ensures x == y && es[a] in files[x].entries
  {
    LongerSortsFirst(l, a, b);
    assert !Overlaps(l[a], l[b]);
    assert IsAt(files, es[a], l, a, first, base, rest) && IsAt(files, es[b], l, b, first, base, rest);
    x :| rest <= x < |files| && es[a] in files[x].entries;
    var z :| rest <= z < |files| && es[b] in files[z].entries;
    SamePlace(files, es[b], y, z);
    assert files[x].match_ == l[a].match_ && files[z].match_ == l[b].match_;
  }

  lemma HostViewPair(files: seq<File>, entries: seq<Entry>, host: string, es: seq<nat>, l: seq<Entry>, first: MatchType,
                     base: nat, rest: nat, path: string, a: nat, b: nat)
    requires HostView(files, entries, host, es, l, first, base, rest)
    requires a < |l| && b < |l| && PathMatches(l[a], path) && PathMatches(l[b], path) && |l[a].path| > |l[b].path|
    ensures LongerPair(files, es, l, first, base, rest, path, a, b)
  {
  }

  /** Nothing that matches comes after something shorter that matches. */
  lemma LongerNotAfter(files: seq<File>, entries: seq<Entry>, host: string, es: seq<nat>, l: seq<Entry>, first: MatchType,
                       base: nat, rest: nat, path: string, a: nat, b: nat, y: nat, q: nat) returns (x: nat, p: nat)
    requires HostView(files, entries, host, es, l, first, base, rest) && LongerFirst(l, first)
    requires a < |l| && b < |l| && PathMatches(l[a], path) && PathMatches(l[b], path) && |l[a].path| > |l[b].path|
    requires y < |files| && q < |files[y].entries| && files[y].entries[q] == es[b]
    ensures x < |files| && p < |files[x].entries| && files[x].entries[p] == es[a]
    ensures x < y || (x == y && p < q)
  {
    HostViewPair(files, entries, host, es, l, first, base, rest, path, a, b);
    if l[a].match_ != Exact && IsPriority(l, b) {
      ShorterThanRequest(l[a], path);
      MatchesNest(l[a], l[b], path);
      LongerIsHigher(l, first, a, b);
    }
    if l[a].match_ == Exact || IsPriority(l, a) {
      x := LongerIsEarlier(files, es, l, first, base, rest, path, a, b, y);
    } else {
      ShorterThanRequest(l[a], path);
      MatchesNest(l[a], l[b], path);
      x := SameDefault(files, entries, host, es, l, first, base, rest, a, b, y);
    }
    p :| 0 <= p < |files[x].entries| && files[x].entries[p] == es[a];
    if x == y {
      EarlierInFile(files, entries, es, l, x, a, b, p, q, path);
    }
  }

  lemma EarlierInFile(files: seq<File>, entries: seq<Entry>, es: seq<nat>, l: seq<Entry>, x: nat, a: nat, b: nat, p: nat, q: nat, path: string)
    requires |l| == |es| && a < |l| && b < |l| && x < |files|
    requires AllFit(files, entries)
    requires es[a] < |entries| && entries[es[a]] == l[a] && es[b] < |entries| && entries[es[b]] == l[b]
    requires l[a].hostname == l[b].hostname && LowerCase(l[a]) && LowerCase(l[b]) && l[a].match_ != Regex
    requires IsSplit(files[x].match_) ==> InFileOrder(files[x], entries)
    requires PathMatches(l[a], path) && PathMatches(l[b], path) && |l[a].path| > |l[b].path|
    requires p < |files[x].entries| && q < |files[x].entries| && files[x].entries[p] == es[a] && files[x].entries[q] == es[b]
    ensures p < q
  {
    assert l[a].match_ == files[x].match_ == l[b].match_;
    ShorterThanRequest(l[a], path);
    MatchesNest(l[a], l[b], path);
    PrefixSortsFirst(l[b].path, l[a].path);
    if q < p {
      LexAntisymmetric(l[a].path, l[b].path);
    }
  }

  /** Sufficient: with `LongerFirst`, every request gets its longest path. */
  lemma LongerFirstSuffices(files: seq<File>, entries: seq<Entry>, host: string, es: seq<nat>, l: seq<Entry>, first: MatchType,
                            base: nat, rest: nat)
    requires HostView(files, entries, host, es, l, first, base, rest) && LongerFirst(l, first)
    ensures AnswersLongest(files, entries, host, l)
  {
    forall path
      ensures match Lookup(files, entries, host, path)
              case None => forall k :: 0 <= k < |l| ==> !PathMatches(l[k], path)
              case Some(id) => id < |entries| && IsLongest(l, entries[id], path)
    {
      var y, q := LookupFirst(files, entries, host, path);
      forall a | 0 <= a < |l| && PathMatches(l[a], path)
        ensures y < |files| && |l[a].path| <= |entries[files[y].entries[q]].path|
      {
        NoLonger(files, entries, host, es, l, first, base, rest, path, y, q, a);
      }
    }
  }

  lemma IsSomewhere(files: seq<File>, entries: seq<Entry>, host: string, es: seq<nat>, l: seq<Entry>, first: MatchType,
                    base: nat, rest: nat, k: nat, path: string) returns (x: nat, p: nat)
    requires HostView(files, entries, host, es, l, first, base, rest) && k < |l| && PathMatches(l[k], path)
    ensures x < |files| && p < |files[x].entries| && files[x].entries[p] == es[k]
    ensures Hits(entries, files[x].entries[p], host, path)
  {
    OccursWhere(files, es[k]);
    x :| 0 <= x < |files| && es[k] in files[x].entries;
    p :| 0 <= p < |files[x].entries| && files[x].entries[p] == es[k];
  }

  lemma NoLonger(files: seq<File>, entries: seq<Entry>, host: string, es: seq<nat>, l: seq<Entry>, first: MatchType,
                 base: nat, rest: nat, path: string, y: nat, q: nat, a: nat)
    requires HostView(files, entries, host, es, l, first, base, rest) && LongerFirst(l, first)
    requires y <= |files| && NoHitBefore(files, entries, host, path, y)
    requires y < |files| ==> q < |files[y].entries| && Hits(entries, files[y].entries[q], host, path)
    requires y < |files| ==> forall p :: 0 <= p < q ==> !Hits(entries, files[y].entries[p], host, path)
    requires a < |l| && PathMatches(l[a], path)
    ensures y < |files| && |l[a].path| <= |entries[files[y].entries[q]].path|
  {
    var z, o := IsSomewhere(files, entries, host, es, l, first, base, rest, a, path);
    var b :| 0 <= b < |es| && es[b] == files[y].entries[q];
    if |l[a].path| > |l[b].path| {
      var x, p := LongerNotAfter(files, entries, host, es, l, first, base, rest, path, a, b, y, q);
    }
  }

  ghost predicate DistinctPaths(l: seq<Entry>)
  {
    forall i, j :: 0 <= i < j < |l| ==> l[i].path != l[j].path
  }

  /** A request for a path itself, answered with a longest path, is answered with that path. */
  lemma OwnPathAnswer(l: seq<Entry>, i: nat, b: nat)
    requires DistinctPaths(l) && i < |l| && b < |l|
    requires forall k :: 0 <= k < |l| ==> IsSplit(l[k].match_) && LowerCase(l[k])
    requires PathMatches(l[b], l[i].path) && IsLongest(l, l[b], l[i].path)
    ensures b == i
  {
    MatchesOwnPath(l[i]);
    ShorterThanRequest(l[b], l[i].path);
    MatchesNest(l[i], l[b], l[i].path);
    assert l[b].path == l[i].path;
  }

  /** Necessary: a pair placed the wrong way round makes some request miss its longest path. */
  lemma LongerFirstNeeded(files: seq<File>, entries: seq<Entry>, host: string, es: seq<nat>, l: seq<Entry>, first: MatchType,
                          base: nat, rest: nat)
    requires HostView(files, entries, host, es, l, first, base, rest)
    requires DistinctPaths(l) && forall k :: 0 <= k < |l| ==> IsSplit(l[k].match_)
    requires AnswersLongest(files, entries, host, l)
    ensures LongerFirst(l, first)
  {
    forall i, j | 0 <= i < |l| && 0 <= j < |l| && Overlaps(l[i], l[j]) && PathMatches(l[j], l[i].path) && IsPriority(l, j)
      ensures Level(l, i, first) < Level(l, j, first)
    {
      LevelType(l, i, first);
      LevelType(l, j, first);
      LongerSortsFirst(l, i, j);
      NotBelow(files, entries, host, es, l, first, base, rest, i, j);
    }
  }

  lemma NotBelow(files: seq<File>, entries: seq<Entry>, host: string, es: seq<nat>, l: seq<Entry>, first: MatchType,
                 base: nat, rest: nat, i: nat, j: nat)
    requires HostView(files, entries, host, es, l, first, base, rest)
    requires DistinctPaths(l) && forall k :: 0 <= k < |l| ==> IsSplit(l[k].match_)
    requires AnswersLongest(files, entries, host, l)
    requires i < |l| && j < |l| && IsPriority(l, i) && IsPriority(l, j) && PathMatches(l[j], l[i].path)
    ensures Level(l, i, first) <= Level(l, j, first)
  {
    var y := OwnPathPlace(files, entries, host, es, l, first, base, rest, i);
    assert IsAt(files, es[i], l, i, first, base, rest) && IsAt(files, es[j], l, j, first, base, rest);
    var z, o := PriorityPlace(files, es[i], l, i, first, base, rest);
    var x, p := PriorityPlace(files, es[j], l, j, first, base, rest);
    SamePlace(files, es[i], y, z);
    assert Hits(entries, files[x].entries[p], host, l[i].path);
  }

  /** Where a priority entry is. */
  lemma PriorityPlace(files: seq<File>, id: nat, l: seq<Entry>, k: nat, first: MatchType, base: nat, rest: nat) returns (x: nat, p: nat)
    requires k < |l| && IsPriority(l, k) && IsSplit(l[k].match_) && IsAt(files, id, l, k, first, base, rest)
    ensures x == base + Level(l, k, first) < |files|
    ensures p < |files[x].entries| && files[x].entries[p] == id
  {
    x := base + Level(l, k, first);
    p :| 0 <= p < |files[x].entries| && files[x].entries[p] == id;
  }

  lemma OwnPathPlace(files: seq<File>, entries: seq<Entry>, host: string, es: seq<nat>, l: seq<Entry>, first: MatchType,
                     base: nat, rest: nat, i: nat) returns (y: nat)
    requires HostView(files, entries, host, es, l, first, base, rest)
    requires DistinctPaths(l) && forall k :: 0 <= k < |l| ==> IsSplit(l[k].match_)
    requires AnswersLongest(files, entries, host, l) && i < |l|
    ensures y < |files| && es[i] in files[y].entries && NoHitBefore(files, entries, host, l[i].path, y)
  {
    var path, q := l[i].path, 0;
    MatchesOwnPath(l[i]);
    y, q := LookupFirst(files, entries, host, path);
    var z, o := IsSomewhere(files, entries, host, es, l, first, base, rest, i, path);
    var b :| 0 <= b < |es| && es[b] == files[y].entries[q];
    OwnPathAnswer(l, i, b);
  }

  /**
   For a host of begin and prefix paths, all different, HAProxy's first match is the longest
   match on every request if and only if the paths satisfy `LongerFirst`.
   */
  lemma LongestMatchIffLongerFirst(files: seq<File>, entries: seq<Entry>, host: string, es: seq<nat>, l: seq<Entry>, first: MatchType,
                                   base: nat, rest: nat)
    requires HostView(files, entries, host, es, l, first, base, rest)
    requires DistinctPaths(l) && forall k :: 0 <= k < |l| ==> IsSplit(l[k].match_)
    ensures AnswersLongest(files, entries, host, l) <==> LongerFirst(l, first)
  {
    if LongerFirst(l, first) {
      LongerFirstSuffices(files, entries, host, es, l, first, base, rest);
    }
    if AnswersLongest(files, entries, host, l) {
      LongerFirstNeeded(files, entries, host, es, l, first, base, rest);
    }
  }

  lemma SiblingsAreSplit()
    ensures DistinctPaths(SIBLINGS) && forall k :: 0 <= k < |SIBLINGS| ==> IsSplit(SIBLINGS[k].match_)
  {
    var l := SIBLINGS;
    assert l[2].path[1] == l[3].path[1] && l[2].path[2] != l[3].path[2];
  }

  /** The six sibling paths do get a request answered with a shorter path. */
  lemma SiblingsAnsweredWrong(files: seq<File>, entries: seq<Entry>, host: string, es: seq<nat>, l: seq<Entry>, first: MatchType,
                              base: nat, rest: nat)
    requires HostView(files, entries, host, es, l, first, base, rest)
    requires l == SIBLINGS
    ensures !AnswersLongest(files, entries, host, l)
  {
    assert !LongerFirst(l, first) by { SiblingsBreakOrder(first); }
    assert DistinctPaths(l) && forall k :: 0 <= k < |l| ==> IsSplit(l[k].match_) by { SiblingsAreSplit(); }
    LongestMatchIffLongerFirst(files, entries, host, es, l, first, base, rest);
  }
}
