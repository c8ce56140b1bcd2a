/**
 Which priority file a path of a host gets when paths overlap, as a function of the
 list of paths alone, and when that placement lists every longer path first.
 */
module PathPrecedence {
  import opened Model
  import opened Ordering

  datatype Entry = Entry(
    hostname: string,
    path: string,
    match_: MatchType,
    headers: Option<seq<HTTPMatch>>,
    order: int,
    key: string,
    value: string)

  predicate HasFilter(e: Entry)
  {
    e.headers.Some?
  }

  predicate IsSplit(m: MatchType)
  {
    m == Begin || m == Prefix
  }

  /** `e1` must be searched before `e2`, and they cannot share a file. */
  predicate Overlaps(e1: Entry, e2: Entry)
  {
    && e1.match_ != e2.match_
    && e1.path != e2.path
    && e1.match_ != Exact && e2.match_ != Exact
    && e1.match_ != Regex && e2.match_ != Regex
    && e2.path <= e1.path
  }

  function Other(m: MatchType): MatchType
  {
    if m == Begin then Prefix else Begin
  }

  // ---------------------------------------------------------------- placement

  /** The last of the first `n` entries that overlaps entry `j`: what `_upper` ends up pointing to. */
  function LastOver(l: seq<Entry>, j: nat, n: nat): (r: Option<nat>)
    requires j < |l| && n <= |l|
    ensures r.Some? ==> r.value < n && Overlaps(l[r.value], l[j])
    ensures forall k :: 0 <= k < n && Overlaps(l[k], l[j]) ==> r.Some? && k <= r.value
  {
    if n == 0 then None
    else if Overlaps(l[n - 1], l[j]) then Some(n - 1)
    else LastOver(l, j, n - 1)
  }

  /** The entry overlaps a later one, so it is moved to a priority file. */
  ghost predicate IsPriority(l: seq<Entry>, i: nat)
    requires i < |l|
  {
    exists j :: i < j < |l| && Overlaps(l[i], l[j])
  }

  /** Where the search for a file starts finding one when there is no `_upper`. */
  function Base(first: MatchType, m: MatchType): nat
  {
    if m == first then 0 else 1
  }

  /** Match type of the file at a position: priority files alternate between the two types. */
  function TypeAt(first: MatchType, k: nat): MatchType
  {
    if k % 2 == 0 then first else Other(first)
  }

  /** Position, among the priority files, of the file that receives entry `j`. */
  function Level(l: seq<Entry>, j: nat, first: MatchType): nat
    requires j < |l|
    decreases j
  {
    var up := LastOver(l, j, j);
    if up.None? then Base(first, l[j].match_) else Level(l, up.value, first) + 1
  }

  lemma {:induction false} LevelType(l: seq<Entry>, j: nat, first: MatchType)
    requires j < |l| && IsSplit(first) && IsSplit(l[j].match_)
    ensures TypeAt(first, Level(l, j, first)) == l[j].match_
    ensures Level(l, j, first) >= Base(first, l[j].match_)
  {
    var up := LastOver(l, j, j);
    if up.Some? {
      LevelType(l, up.value, first);
    }
  }

  // ---------------------------------------------------------------- matching

  function LowerChar(c: char): char
  {
    if 'A' <= c <= 'Z' then (c as int + 32) as char else c
  }

  function Lower(s: string): (r: string)
    ensures |r| == |s|
    ensures forall i :: 0 <= i < |s| ==> r[i] == LowerChar(s[i])
  {
    seq(|s|, i requires 0 <= i < |s| => LowerChar(s[i]))
  }

  /** A path prefix that ends where a path segment ends. */
  predicate DirMatches(p: string, path: string)
  {
    p <= path && (|p| == |path| || (p != [] && p[|p| - 1] == '/') || path[|p|] == '/')
  }

  predicate PathMatches(e: Entry, path: string)
  {
    match e.match_
    case Exact => e.path == path
    case Prefix => DirMatches(e.path, path)
    case Begin => e.path <= Lower(path)
    case Regex => false
  }

  predicate LowerCase(e: Entry)
  {
    IsSplit(e.match_) ==> Lower(e.path) == e.path
  }

  lemma LowerKeepsPrefix(p: string, path: string)
    requires p <= path && Lower(p) == p
    ensures p <= Lower(path)
  {
  }

  /** Two begin or prefix paths that match a request are one a prefix of the other. */
  lemma MatchesNest(a: Entry, b: Entry, path: string)
    requires IsSplit(a.match_) && IsSplit(b.match_) && LowerCase(a) && LowerCase(b)
    requires PathMatches(a, path) && PathMatches(b, path)
    requires |a.path| >= |b.path|
    ensures b.path <= a.path
    ensures |a.path| > |b.path| ==> PathMatches(b, a.path)
    ensures |a.path| <= |path|
  {
    if a.match_ == Prefix {
      LowerKeepsPrefix(a.path, path);
    }
    if b.match_ == Prefix {
      LowerKeepsPrefix(b.path, path);
    }
    assert a.path <= Lower(path) && b.path <= Lower(path);
    assert b.path <= a.path by {
      assert a.path == Lower(path)[..|a.path|] && b.path == Lower(path)[..|b.path|];
    }
    if |a.path| > |b.path| && b.match_ == Prefix && !(b.path != [] && b.path[|b.path| - 1] == '/') {
      assert path[|b.path|] == '/';
      assert a.path[|b.path|] == Lower(path)[|b.path|] == LowerChar('/');
    }
  }

  lemma MatchesOwnPath(e: Entry)
    requires IsSplit(e.match_) && LowerCase(e)
    ensures PathMatches(e, e.path)
  {
  }

  // ---------------------------------------------------------------- when longer paths come first

  /**
   Every entry is placed above each shorter entry of the other type that can answer
   the same request. The positions are those of `Level`, a function of the paths.
   */
  ghost predicate LongerFirst(l: seq<Entry>, first: MatchType)
  {
    forall i, j :: 0 <= i < |l| && 0 <= j < |l| && Overlaps(l[i], l[j])
                   && PathMatches(l[j], l[i].path) && IsPriority(l, j) ==>
                     Level(l, i, first) < Level(l, j, first)
  }

  /** The order sort.Slice leaves the entries of a host in. */
  ghost predicate Descending(l: seq<Entry>)
  {
    forall i, j :: 0 <= i < j < |l| ==> LexLe(l[j].path, l[i].path)
  }

  lemma LongerSortsFirst(l: seq<Entry>, i: nat, j: nat)
    requires Descending(l) && i < |l| && j < |l|
    requires l[j].path <= l[i].path && l[i].path != l[j].path
    ensures i < j
  {
    PrefixSortsFirst(l[j].path, l[i].path);
    if j < i {
      LexAntisymmetric(l[j].path, l[i].path);
    }
  }

  /** An entry that extends a priority entry is a priority entry. */
  lemma PriorityUpwards(l: seq<Entry>, i: nat, j: nat)
    requires Descending(l) && i < |l| && j < |l|
    requires IsSplit(l[i].match_) && IsSplit(l[j].match_)
    requires l[j].path <= l[i].path && l[i].path != l[j].path
    requires l[i].match_ != l[j].match_ || IsPriority(l, j)
    ensures IsPriority(l, i)
  {
    LongerSortsFirst(l, i, j);
    if l[i].match_ == l[j].match_ {
      var k :| j < k < |l| && Overlaps(l[j], l[k]);
      assert Overlaps(l[i], l[k]);
    }
  }

  /** Same type: the longer entry is not below the shorter one. */
  lemma SameTypeLevels(l: seq<Entry>, i: nat, j: nat, first: MatchType)
    requires Descending(l) && LongerFirst(l, first) && IsSplit(first)
    requires i < |l| && j < |l| && IsSplit(l[i].match_) && l[i].match_ == l[j].match_
    requires l[j].path <= l[i].path && l[i].path != l[j].path && PathMatches(l[j], l[i].path)
    requires IsPriority(l, j)
    requires LowerCase(l[j])
    requires forall k :: 0 <= k < |l| ==> LowerCase(l[k])
    ensures Level(l, i, first) <= Level(l, j, first)
  {
    LevelType(l, j, first);
    var up := LastOver(l, i, i);
    if up.Some? {
      var k := up.value;
      assert Overlaps(l[k], l[j]);
      assert PathMatches(l[j], l[k].path) by {
        if l[j].match_ == Prefix && |l[k].path| > |l[j].path| {
          assert l[k].path[|l[j].path|] == l[i].path[|l[j].path|];
        }
      }
      assert Level(l, k, first) < Level(l, j, first);
    }
  }

  // ---------------------------------------------------------------- nested paths are always fine

  ghost predicate Nested(l: seq<Entry>)
  {
    forall i, j :: 0 <= i < |l| && 0 <= j < |l| ==> l[i].path <= l[j].path || l[j].path <= l[i].path
  }

  lemma NestedShorter(l: seq<Entry>, i: nat, j: nat)
    requires Nested(l) && Descending(l) && i <= j < |l|
    ensures l[j].path <= l[i].path
  {
    if i < j && !(l[j].path <= l[i].path) {
      PrefixSortsFirst(l[i].path, l[j].path);
      LexAntisymmetric(l[i].path, l[j].path);
    }
  }

  lemma {:induction false} NestedSameType(l: seq<Entry>, i: nat, k: nat, first: MatchType)
    requires Nested(l) && Descending(l) && IsSplit(first)
    requires i <= k < |l| && IsSplit(l[i].match_) && l[i].match_ == l[k].match_
    ensures Level(l, i, first) <= Level(l, k, first)
    decreases k
  {
    LevelType(l, k, first);
    NestedShorter(l, i, k);
    var up := LastOver(l, i, i);
    if up.Some? {
      assert Overlaps(l[up.value], l[k]);
      NestedSameType(l, up.value, LastOver(l, k, k).value, first);
    }
  }

  /** When the paths of a host are pairwise prefixes of each other, longer ones always come first. */
  lemma NestedLongerFirst(l: seq<Entry>, first: MatchType)
    requires Nested(l) && Descending(l) && IsSplit(first)
    ensures LongerFirst(l, first)
  {
    hide Overlaps, PathMatches, Level, Nested, Descending;
    forall i, j | 0 <= i < |l| && 0 <= j < |l| && Overlaps(l[i], l[j])
      ensures Level(l, i, first) < Level(l, j, first)
    {
      NestedPair(l, i, j, first);
    }
  }

  lemma NestedPair(l: seq<Entry>, i: nat, j: nat, first: MatchType)
    requires Nested(l) && Descending(l) && IsSplit(first)
    requires i < |l| && j < |l| && Overlaps(l[i], l[j])
    ensures Level(l, i, first) < Level(l, j, first)
  {
    hide Nested, Descending;
    LongerSortsFirst(l, i, j);
    var up := LastOver(l, j, j);
    NestedSameType(l, i, up.value, first);
    assert Level(l, j, first) == Level(l, up.value, first) + 1;
  }

  // ---------------------------------------------------------------- siblings are not

  function Plain(path: string, m: MatchType): Entry
  {
    Entry("h", path, m, None, 0, "h#" + path, path)
  }

  /** Six paths whose sibling `/ab` overwrites what `/a` learned from `/ac`. */
  const SIBLINGS: seq<Entry> := [
    Plain("/acde", Prefix), Plain("/acd", Begin), Plain("/ac", Prefix),
    Plain("/ab", Prefix), Plain("/a", Begin), Plain("/", Prefix)]

  lemma SiblingLevels(first: MatchType)
    requires IsSplit(first)
    ensures Level(SIBLINGS, 2, first) == Base(first, Prefix) + 2
    ensures Level(SIBLINGS, 4, first) == Base(first, Prefix) + 1
  {
    var l := SIBLINGS;
    SiblingOverlaps();
    assert LastOver(l, 0, 0) == None;
    assert Level(l, 0, first) == Base(first, Prefix);
    assert LastOver(l, 1, 1) == Some(0);
    assert Level(l, 1, first) == Base(first, Prefix) + 1;
    assert LastOver(l, 2, 2) == Some(1);
    assert LastOver(l, 3, 3) == None;
    assert Level(l, 3, first) == Base(first, Prefix);
    assert LastOver(l, 4, 4) == Some(3);
  }

  lemma SiblingOverlaps()
    ensures var l := SIBLINGS;
            && Overlaps(l[0], l[1]) && Overlaps(l[1], l[2]) && !Overlaps(l[0], l[2])
            && !Overlaps(l[0], l[3]) && !Overlaps(l[1], l[3]) && !Overlaps(l[2], l[3])
            && Overlaps(l[3], l[4]) && Overlaps(l[2], l[4]) && Overlaps(l[4], l[5])
  {
    var l := SIBLINGS;
    assert l[1].path == l[0].path[..4];
    assert l[2].path == l[1].path[..3];
    assert l[4].path == l[2].path[..2] == l[3].path[..2];
    assert l[5].path == l[4].path[..1];
    assert l[3].path[2] != l[1].path[2];
  }

  /** The placement is wrong for them, whatever file comes first: `/a` is searched before `/ac`. */
  lemma SiblingsBreakOrder(first: MatchType)
    requires IsSplit(first)
    ensures !LongerFirst(SIBLINGS, first)
  {
    SiblingOverlaps();
    SiblingLevels(first);
    var l := SIBLINGS;
    assert IsPriority(l, 4);
    assert PathMatches(l[4], l[2].path);
  }

  // ---------------------------------------------------------------- and some depend on the first file

  /** Seven paths that are in order if the first priority file is one of begin paths, and not otherwise. */
  const DEPENDENT: seq<Entry> := [
    Plain("/a/cde", Begin), Plain("/a/cd", Prefix), Plain("/a/c", Begin),
    Plain("/a/bc", Prefix), Plain("/a/b", Begin), Plain("/a/", Prefix), Plain("/", Begin)]

  lemma DependentOverlaps()
    ensures var l := DEPENDENT;
            && Overlaps(l[0], l[1]) && Overlaps(l[1], l[2]) && !Overlaps(l[0], l[3]) && !Overlaps(l[2], l[3])
            && !Overlaps(l[3], l[2]) && Overlaps(l[3], l[4]) && !Overlaps(l[1], l[4]) && Overlaps(l[2], l[5]) && Overlaps(l[4], l[5])
            && Overlaps(l[5], l[6])
  {
    var l := DEPENDENT;
    assert l[1].path == l[0].path[..5];
    assert l[2].path == l[1].path[..4];
    assert l[4].path == l[3].path[..4];
    assert l[5].path == l[2].path[..3] == l[4].path[..3];
    assert l[6].path == l[5].path[..1];
    assert l[3].path[3] != l[2].path[3] && l[3].path[3] != l[0].path[3];
    assert l[4].path[3] != l[1].path[3];
  }

  lemma DependentLevels(first: MatchType)
    requires IsSplit(first)
    ensures var l, b, p := DEPENDENT, Base(first, Begin), Base(first, Prefix);
            && Level(l, 0, first) == b && Level(l, 1, first) == b + 1 && Level(l, 2, first) == b + 2
            && Level(l, 3, first) == p && Level(l, 4, first) == p + 1 && Level(l, 5, first) == p + 2
  {
    var l := DEPENDENT;
    DependentOverlaps();
    assert LastOver(l, 0, 0) == None;
    assert LastOver(l, 1, 1) == Some(0);
    assert LastOver(l, 2, 2) == Some(1);
    assert LastOver(l, 3, 3) == None;
    assert LastOver(l, 4, 4) == Some(3);
    assert LastOver(l, 5, 5) == Some(4);
    assert Level(l, 0, first) == Base(first, Begin);
    assert Level(l, 1, first) == Base(first, Begin) + 1;
    assert Level(l, 3, first) == Base(first, Prefix);
    assert Level(l, 4, first) == Base(first, Prefix) + 1;
  }

  lemma DependentPair(i: nat, j: nat)
    requires i < 7 && j < 6 && Overlaps(DEPENDENT[i], DEPENDENT[j])
    ensures Level(DEPENDENT, i, Begin) < Level(DEPENDENT, j, Begin)
  {
    hide Level;
    var l := DEPENDENT;
    DependentOverlaps();
    DependentLevels(Begin);
    assert |l[i].path| > |l[j].path|;
  }

  lemma DependentInOrder()
    ensures LongerFirst(DEPENDENT, Begin)
  {
    hide Overlaps, PathMatches, Level;
    var l := DEPENDENT;
    forall i, j | 0 <= i < |l| && 0 <= j < |l| && Overlaps(l[i], l[j]) && PathMatches(l[j], l[i].path) && IsPriority(l, j)
      ensures Level(l, i, Begin) < Level(l, j, Begin)
    {
      DependentPair(i, j);
    }
  }

  lemma DependentNotInOrder()
    ensures !LongerFirst(DEPENDENT, Prefix)
  {
    hide Level, Overlaps;
    DependentOverlaps();
    DependentLevels(Prefix);
    assert IsPriority(DEPENDENT, 5) && PathMatches(DEPENDENT[5], DEPENDENT[2].path);
  }
}
