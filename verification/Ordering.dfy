/**
 Byte-wise string order and comparison sorting, as used by `sort.Strings` and
 `sort.Slice` throughout the controller.
 */
module Ordering {

  /** Go's `a <= b` on strings. */
  predicate LexLe(a: string, b: string)
  {
    a == [] || (b != [] && (a[0] < b[0] || (a[0] == b[0] && LexLe(a[1..], b[1..]))))
  }

  predicate LexLess(a: string, b: string)
  {
    LexLe(a, b) && a != b
  }

  lemma {:induction false} LexTotal(a: string, b: string)
    ensures LexLe(a, b) || LexLe(b, a)
  {
    if a != [] && b != [] && a[0] == b[0] {
      LexTotal(a[1..], b[1..]);
    }
  }

  lemma {:induction false} LexReflexive(a: string)
    ensures LexLe(a, a)
  {
    if a != [] {
      LexReflexive(a[1..]);
    }
  }

  lemma {:induction false} LexAntisymmetric(a: string, b: string)
    requires LexLe(a, b) && LexLe(b, a)
    ensures a == b
  {
    if a != [] && b != [] {
      LexAntisymmetric(a[1..], b[1..]);
      assert a == [a[0]] + a[1..] && b == [b[0]] + b[1..];
    }
  }

  lemma {:induction false} LexTransitive(a: string, b: string, c: string)
    requires LexLe(a, b) && LexLe(b, c)
    ensures LexLe(a, c)
  {
    if a != [] && b != [] && c != [] && a[0] == b[0] == c[0] {
      LexTransitive(a[1..], b[1..], c[1..]);
    }
  }

  /** A prefix never sorts after what it is a prefix of. */
  lemma {:induction false} PrefixSortsFirst(a: string, b: string)
    requires a <= b
    ensures LexLe(a, b)
  {
    if a != [] {
      assert b[0] == a[0];
      PrefixSortsFirst(a[1..], b[1..]);
    }
  }

  predicate SortedBy<T>(s: seq<T>, le: (T, T) -> bool)
  {
    forall i, j :: 0 <= i < j < |s| ==> le(s[i], s[j])
  }

  ghost predicate TotalPreorder<T(!new)>(le: (T, T) -> bool)
  {
    && (forall x, y :: le(x, y) || le(y, x))
    && (forall x, y, z :: le(x, y) && le(y, z) ==> le(x, z))
  }

  lemma LexIsTotalOrder()
    ensures TotalPreorder(LexLe)
  {
    forall x, y ensures LexLe(x, y) || LexLe(y, x) { LexTotal(x, y); }
    forall x, y, z | LexLe(x, y) && LexLe(y, z) ensures LexLe(x, z) { LexTransitive(x, y, z); }
  }

  function Insert<T>(x: T, s: seq<T>, le: (T, T) -> bool): (r: seq<T>)
    ensures multiset(r) == multiset{x} + multiset(s)
    ensures |r| == |s| + 1
  {
    if s == [] then [x]
    else if le(x, s[0]) then [x] + s
    else
      assert s == [s[0]] + s[1..];
      [s[0]] + Insert(x, s[1..], le)
  }

  /** The result of `sort.Slice`: a rearrangement, ordered when the comparison is an ordering. */
  function Sort<T>(s: seq<T>, le: (T, T) -> bool): (r: seq<T>)
    ensures multiset(r) == multiset(s)
    ensures |r| == |s|
  {
    if s == [] then []
    else
      assert s == [s[0]] + s[1..];
      Insert(s[0], Sort(s[1..], le), le)
  }

  /** The comparison is a total preorder on the members of `d`. */
  ghost predicate PreorderOn<T>(d: set<T>, le: (T, T) -> bool)
  {
    && (forall x, y :: x in d && y in d ==> le(x, y) || le(y, x))
    && (forall x, y, z :: x in d && y in d && z in d && le(x, y) && le(y, z) ==> le(x, z))
  }

  lemma {:induction false} InsertSortedOn<T>(d: set<T>, x: T, s: seq<T>, le: (T, T) -> bool)
    requires PreorderOn(d, le) && SortedBy(s, le)
    requires x in d && forall y :: y in s ==> y in d
    ensures SortedBy(Insert(x, s, le), le)
  {
    if s == [] {
    } else if le(x, s[0]) {
      forall j | 0 <= j < |s| ensures le(x, s[j]) {
        assert s[j] in s && s[0] in s;
      }
    } else {
      InsertSortedOn(d, x, s[1..], le);
      var r := Insert(x, s[1..], le);
      forall j | 0 <= j < |r| ensures le(s[0], r[j]) {
        assert r[j] in multiset(r);
        assert s[0] in s;
        assert r[j] == x || r[j] in s[1..];
      }
    }
  }

  lemma {:induction false} SortSortedOn<T>(d: set<T>, s: seq<T>, le: (T, T) -> bool)
    requires PreorderOn(d, le)
    requires forall y :: y in s ==> y in d
    ensures SortedBy(Sort(s, le), le)
  {
    if s != [] {
      var r := Sort(s[1..], le);
      SortSortedOn(d, s[1..], le);
      forall y | y in r ensures y in d {
        assert y in multiset(r) && y in multiset(s[1..]);
        assert y in s[1..];
      }
      InsertSortedOn(d, s[0], r, le);
    }
  }

  lemma InsertSorted<T(!new)>(x: T, s: seq<T>, le: (T, T) -> bool)
    requires TotalPreorder(le) && SortedBy(s, le)
    ensures SortedBy(Insert(x, s, le), le)
  {
    InsertSortedOn({x} + (set y | y in s), x, s, le);
  }

  lemma SortSorted<T(!new)>(s: seq<T>, le: (T, T) -> bool)
    requires TotalPreorder(le)
    ensures SortedBy(Sort(s, le), le)
  {
    SortSortedOn((set y | y in s), s, le);
  }

  ghost predicate Asymmetric<T(!new)>(less: (T, T) -> bool)
  {
    forall x, y :: less(x, y) ==> !less(y, x)
  }

  /** Two strictly ascending lists with the same members are the same list. */
  lemma {:induction false} AscendingUnique<T(!new)>(s: seq<T>, t: seq<T>, less: (T, T) -> bool)
    requires Asymmetric(less) && SortedBy(s, less) && SortedBy(t, less)
    requires forall x :: x in s <==> x in t
    ensures s == t
  {
    if s == [] {
      HasMember(t);
    } else {
      assert s[0] in t && (t != [] ==> t[0] in s);
      AscendingHeads(s, t, less);
      forall x ensures x in s[1..] <==> x in t[1..] {
        assert x in s[1..] <==> x in s && x != s[0];
        assert x in t[1..] <==> x in t && x != t[0];
      }
      AscendingUnique(s[1..], t[1..], less);
      assert s == [s[0]] + s[1..] && t == [t[0]] + t[1..];
    }
  }

  lemma HasMember<T>(s: seq<T>)
    ensures s != [] ==> exists x :: x in s
  {
    if s != [] {
      assert s[0] in s;
    }
  }

  lemma AscendingHeads<T(!new)>(s: seq<T>, t: seq<T>, less: (T, T) -> bool)
    requires Asymmetric(less) && SortedBy(s, less) && SortedBy(t, less)
    requires s != [] && t != [] && s[0] in t && t[0] in s
    ensures s[0] == t[0]
  {
    var i :| 0 <= i < |t| && t[i] == s[0];
    var j :| 0 <= j < |s| && s[j] == t[0];
  }

  // ---------------------------------------------------------------- rearranged sequences

  lemma TakenOut<T>(s: seq<T>, k: nat)
    requires k < |s|
    ensures multiset(s) == multiset(s[..k] + s[k + 1..]) + multiset{s[k]}
  {
    assert s == s[..k] + [s[k]] + s[k + 1..];
  }

  /** The member of `s` that the j-th of `t` is, both taken out. */
  lemma TakenOutBoth<T>(s: seq<T>, t: seq<T>, j: nat) returns (k: nat)
    requires multiset(s) == multiset(t) && j < |t|
    ensures k < |s| && s[k] == t[j]
    ensures multiset(s[..k] + s[k + 1..]) == multiset(t[..j] + t[j + 1..])
  {
    assert t[j] in multiset(t) && t[j] in multiset(s);
    k :| 0 <= k < |s| && s[k] == t[j];
    TakenOut(s, k);
    TakenOut(t, j);
    SameRest(multiset(s[..k] + s[k + 1..]), multiset(t[..j] + t[j + 1..]), t[j]);
  }

  lemma SameRest<T>(m: multiset<T>, n: multiset<T>, x: T)
    requires m + multiset{x} == n + multiset{x}
    ensures m == n
  {
    assert m == m + multiset{x} - multiset{x};
  }

  /** Two members of a rearranged sequence are two members of the original. */
  lemma TwoOf<T>(s: seq<T>, t: seq<T>, i: nat, j: nat) returns (k: nat, l: nat)
    requires multiset(s) == multiset(t) && i < j < |t|
    ensures k < |s| && l < |s| && k != l && s[k] == t[i] && s[l] == t[j]
  {
    k := TakenOutBoth(s, t, i);
    var m := TakenOutBoth(s[..k] + s[k + 1..], t[..i] + t[i + 1..], j - 1);
    l := if m < k then m else m + 1;
  }

  lemma RearrangedLength<T>(s: seq<T>, t: seq<T>)
    requires multiset(s) == multiset(t)
    ensures |s| == |t|
  {
    assert |multiset(s)| == |s| && |multiset(t)| == |t|;
  }

  lemma DistinctRearranged<T>(s: seq<T>, t: seq<T>)
    requires forall i, j :: 0 <= i < j < |s| ==> s[i] != s[j]
    requires multiset(s) == multiset(t)
    ensures forall i, j :: 0 <= i < j < |t| ==> t[i] != t[j]
  {
    forall i, j | 0 <= i < j < |t| ensures t[i] != t[j] {
      var k, l := TwoOf(s, t, i, j);
    }
  }

  lemma OccursTwiceIn<T>(s: seq<T>, i: nat, j: nat)
    requires i < j < |s| && s[i] == s[j]
    ensures multiset(s)[s[i]] >= 2
  {
    assert s == s[..i] + [s[i]] + s[i + 1..j] + [s[j]] + s[j + 1..];
  }

  /** `sort.Strings` on a list without repetitions. */
  method SortNames(names: seq<string>) returns (r: seq<string>)
    requires forall i, j :: 0 <= i < j < |names| ==> names[i] != names[j]
    ensures SortedBy(r, LexLess)
    ensures forall n :: n in r <==> n in names
  {
    r := Sort(names, LexLe);
    LexIsTotalOrder();
    SortSorted(names, LexLe);
    forall n ensures n in r <==> n in names {
      assert n in multiset(r) <==> n in multiset(names);
    }
    DistinctRearranged(names, r);
  }
}
