/**
 Moving the overlapping and the filtered map entries to files of their own, one pair of
 entries of a host at a time, and where that leaves every entry. An entry is known by its
 index, the model of its address.
 */
module MatchPlacement {
  import opened Model
  import opened Ordering
  import opened PathPrecedence

  datatype File = File(match_: MatchType, headers: Option<seq<HTTPMatch>>, priority: bool, entries: seq<nat>)

  predicate NoDup(s: seq<nat>)
  {
    forall i, j :: 0 <= i < j < |s| ==> s[i] != s[j]
  }

  // ---------------------------------------------------------------- finding a file

  predicate Fits(f: File, e: Entry)
  {
    f.match_ == e.match_ && f.headers == e.headers
  }

  /** The first file from `start` on that fits, or the end of the list. */
  function PlaceIndex(files: seq<File>, start: nat, e: Entry): (r: nat)
    ensures r <= |files|
    ensures r < |files| ==> start <= r && Fits(files[r], e)
    ensures forall k :: start <= k < r ==> !Fits(files[k], e)
    decreases |files| - start
  {
    if start >= |files| then |files|
    else if Fits(files[start], e) then start
    else PlaceIndex(files, start + 1, e)
  }

  function Place(files: seq<File>, at: nat, e: Entry, id: nat): (r: seq<File>)
    requires at <= |files|
    ensures |r| == (if at == |files| then |files| + 1 else |files|)
    ensures forall k :: 0 <= k < |files| ==>
                          r[k].match_ == files[k].match_ && r[k].headers == files[k].headers && r[k].priority == files[k].priority
  {
    if at < |files| then files[at := files[at].(entries := files[at].entries + [id])]
    else files + [File(e.match_, e.headers, true, [id])]
  }

  /** Priority files without filter alternate between begin and prefix. */
  ghost predicate Alternates(order: seq<File>)
  {
    && (order != [] ==> IsSplit(order[0].match_))
    && forall k :: 0 <= k < |order| ==> order[k].match_ == TypeAt(order[0].match_, k) && order[k].headers.None?
  }

  lemma PlaceNext(order: seq<File>, start: nat, e: Entry)
    requires Alternates(order) && !HasFilter(e) && IsSplit(e.match_)
    requires start == 0 || start < |order|
    ensures PlaceIndex(order, start, e) == if order == [] || order[start].match_ == e.match_ then start else start + 1
  {
    if order != [] && order[start].match_ != e.match_ {
      assert start + 1 < |order| ==> Fits(order[start + 1], e);
      assert PlaceIndex(order, start, e) == PlaceIndex(order, start + 1, e);
    }
  }

  lemma PlaceAlternates(order: seq<File>, start: nat, e: Entry, id: nat)
    requires Alternates(order) && !HasFilter(e) && IsSplit(e.match_)
    requires start == 0 || start < |order|
    ensures Alternates(Place(order, PlaceIndex(order, start, e), e, id))
  {
    PlaceNext(order, start, e);
    var at := PlaceIndex(order, start, e);
    if at == |order| && order != [] {
      assert order[start].match_ == TypeAt(order[0].match_, start);
      assert at == start + 1;
    }
  }

  // ---------------------------------------------------------------- where entries are

  /** The entry is where its `_elem` says, in a file it fits. */
  ghost predicate Sits(id: nat, f: File, k: nat, elem: map<nat, nat>, entries: seq<Entry>, filtered: bool)
  {
    id < |entries| && id in elem && elem[id] == k && HasFilter(entries[id]) == filtered && Fits(f, entries[id])
  }

  /** The list holds exactly the placed entries of its kind, each once, at its `_elem`. */
  ghost predicate FilesOk(files: seq<File>, elem: map<nat, nat>, entries: seq<Entry>, filtered: bool)
  {
    && (forall k :: 0 <= k < |files| ==> files[k].priority && NoDup(files[k].entries))
    && (forall k, p :: 0 <= k < |files| && 0 <= p < |files[k].entries| ==>
          Sits(files[k].entries[p], files[k], k, elem, entries, filtered))
    && (forall id :: id in elem ==> id < |entries|)
    && (forall id :: id in elem && HasFilter(entries[id]) == filtered ==>
          elem[id] < |files| && id in files[elem[id]].entries)
  }

  lemma PlaceOk(files: seq<File>, elem: map<nat, nat>, entries: seq<Entry>, filtered: bool, start: nat, id: nat)
    requires FilesOk(files, elem, entries, filtered)
    requires id < |entries| && id !in elem && HasFilter(entries[id]) == filtered
    ensures var at := PlaceIndex(files, start, entries[id]);
            FilesOk(Place(files, at, entries[id], id), elem[id := at], entries, filtered)
  {
    var e := entries[id];
    var at := PlaceIndex(files, start, e);
    var files' := Place(files, at, e, id);
    var elem' := elem[id := at];
    forall k | 0 <= k < |files'| ensures NoDup(files'[k].entries) {
      if k == at && k < |files| {
        forall p | 0 <= p < |files[k].entries| ensures files[k].entries[p] != id {
          assert Sits(files[k].entries[p], files[k], k, elem, entries, filtered);
        }
      }
    }
    forall k, p | 0 <= k < |files'| && 0 <= p < |files'[k].entries|
      ensures Sits(files'[k].entries[p], files'[k], k, elem', entries, filtered)
    {
      if k < |files| && p < |files[k].entries| {
        assert Sits(files[k].entries[p], files[k], k, elem, entries, filtered);
      } else {
        assert k == at && files'[k].entries[p] == id;
      }
    }
    forall x | x in elem' && HasFilter(entries[x]) == filtered
      ensures elem'[x] < |files'| && x in files'[elem'[x]].entries
    {
      if x == id {
        assert files'[at].entries[|files'[at].entries| - 1] == id;
      } else {
        assert x in files[elem[x]].entries;
      }
    }
  }

  lemma OtherKindOk(files: seq<File>, elem: map<nat, nat>, entries: seq<Entry>, filtered: bool, id: nat, at: nat)
    requires FilesOk(files, elem, entries, filtered)
    requires id < |entries| && id !in elem && HasFilter(entries[id]) != filtered
    ensures FilesOk(files, elem[id := at], entries, filtered)
  {
  }

  /** `_upper` points to a file of the other type, never one the entry itself could join. */
  ghost predicate UpperOk(upper: map<nat, nat>, order: seq<File>, entries: seq<Entry>)
  {
    forall id :: id in upper ==>
                   && id < |entries| && !HasFilter(entries[id]) && IsSplit(entries[id].match_)
                   && upper[id] < |order| && order[upper[id]].match_ != entries[id].match_
  }

  // ---------------------------------------------------------------- placement of one host

  ghost function EntriesOf(entries: seq<Entry>, es: seq<nat>): seq<Entry>
    requires forall i :: 0 <= i < |es| ==> es[i] < |entries|
  {
    seq(|es|, i requires 0 <= i < |es| => entries[es[i]])
  }

  ghost predicate FilterFree(l: seq<Entry>)
  {
    forall i :: 0 <= i < |l| ==> !HasFilter(l[i])
  }

  /** Entry `k` was moved to a priority file by the pairs up to (i, j). */
  ghost predicate MovedBy(l: seq<Entry>, k: nat, i: nat, j: nat)
    requires k < |l|
  {
    if k < i then IsPriority(l, k) else k == i && exists m :: i < m < j && m < |l| && Overlaps(l[i], l[m])
  }

  /** The entry whose file `_upper` of entry `m` points to after the pairs up to (i, j). */
  ghost function UpBy(l: seq<Entry>, m: nat, i: nat, j: nat): Option<nat>
    requires i <= m < |l|
  {
    if m == i then LastOver(l, i, i) else LastOver(l, m, if m < j then i + 1 else i)
  }

  ghost predicate AtLevel(l: seq<Entry>, es: seq<nat>, k: nat, elem: map<nat, nat>, order: seq<File>)
    requires k < |l| == |es|
  {
    es[k] in elem && order != [] && elem[es[k]] == Level(l, k, order[0].match_)
  }

  ghost predicate LevelsBy(l: seq<Entry>, es: seq<nat>, elem: map<nat, nat>, order: seq<File>, i: nat, j: nat)
    requires |l| == |es|
  {
    forall k :: 0 <= k < |l| ==> if MovedBy(l, k, i, j) then AtLevel(l, es, k, elem, order) else es[k] !in elem
  }

  ghost predicate UppersBy(l: seq<Entry>, es: seq<nat>, elem: map<nat, nat>, upper: map<nat, nat>, i: nat, j: nat)
    requires |l| == |es|
  {
    forall m :: i <= m < |l| ==>
                  var u := UpBy(l, m, i, j);
                  && (u.Some? <==> es[m] in upper)
                  && (u.Some? ==> es[u.value] in elem && upper[es[m]] == elem[es[u.value]])
  }

  /** All of a host's entries are where `Level` says. */
  ghost predicate HostPlaced(l: seq<Entry>, es: seq<nat>, elem: map<nat, nat>, order: seq<File>)
    requires |l| == |es|
  {
    forall k :: 0 <= k < |l| ==> if IsPriority(l, k) then AtLevel(l, es, k, elem, order) else es[k] !in elem
  }

  /** Placing entry `i` puts it at its level. */
  lemma PlacedAtLevel(l: seq<Entry>, es: seq<nat>, entries: seq<Entry>, elem: map<nat, nat>, upper: map<nat, nat>,
                      order: seq<File>, i: nat, j: nat)
    requires forall k :: 0 <= k < |es| ==> es[k] < |entries|
    requires l == EntriesOf(entries, es) && FilterFree(l)
    requires i < j < |l| && Overlaps(l[i], l[j]) && es[i] !in elem
    requires Alternates(order) && UpperOk(upper, order, entries)
    requires LevelsBy(l, es, elem, order, i, j) && UppersBy(l, es, elem, upper, i, j)
    ensures var start := if es[i] in upper then upper[es[i]] else 0;
            && (start == 0 || start < |order|)
            && PlaceIndex(order, start, l[i]) == Level(l, i, if order == [] then l[i].match_ else order[0].match_)
  {
    var start := if es[i] in upper then upper[es[i]] else 0;
    PlaceNext(order, start, l[i]);
    var up := UpBy(l, i, i, j);
    if up.Some? {
      var k := up.value;
      assert MovedBy(l, k, i, j);
      assert AtLevel(l, es, k, elem, order);
    }
  }

  ghost predicate SamePrefix(order: seq<File>, order': seq<File>)
  {
    |order| <= |order'| && forall k :: 0 <= k < |order| ==> order'[k].match_ == order[k].match_
  }

  lemma NextPairApart(l: seq<Entry>, es: seq<nat>, elem: map<nat, nat>, upper: map<nat, nat>, order: seq<File>, i: nat, j: nat)
    requires |l| == |es| && i < j < |l| && !Overlaps(l[i], l[j])
    requires LevelsBy(l, es, elem, order, i, j) && UppersBy(l, es, elem, upper, i, j)
    ensures LevelsBy(l, es, elem, order, i, j + 1) && UppersBy(l, es, elem, upper, i, j + 1)
  {
    forall k | 0 <= k < |l| ensures MovedBy(l, k, i, j + 1) == MovedBy(l, k, i, j) {
      if k == i && MovedBy(l, k, i, j + 1) {
        var m :| i < m < j + 1 && m < |l| && Overlaps(l[i], l[m]);
      }
    }
    forall m | i <= m < |l| ensures UpBy(l, m, i, j + 1) == UpBy(l, m, i, j) {
    }
  }

  lemma NextPairOverlaps(l: seq<Entry>, es: seq<nat>, elem: map<nat, nat>, upper: map<nat, nat>, order: seq<File>,
                         elem': map<nat, nat>, order': seq<File>, i: nat, j: nat)
    requires |l| == |es| && NoDup(es) && i < j < |l| && Overlaps(l[i], l[j])
    requires LevelsBy(l, es, elem, order, i, j) && UppersBy(l, es, elem, upper, i, j)
    requires SamePrefix(order, order') && order' != []
    requires es[i] in elem' && elem'[es[i]] == Level(l, i, order'[0].match_)
    requires forall k :: 0 <= k < |l| && k != i ==>
               (es[k] in elem <==> es[k] in elem') && (es[k] in elem ==> elem[es[k]] == elem'[es[k]])
    requires es[i] in elem ==> elem[es[i]] == elem'[es[i]]
    ensures LevelsBy(l, es, elem', order', i, j + 1)
    ensures UppersBy(l, es, elem', upper[es[j] := elem'[es[i]]], i, j + 1)
  {
    forall k | 0 <= k < |l|
      ensures if MovedBy(l, k, i, j + 1) then AtLevel(l, es, k, elem', order') else es[k] !in elem'
    {
      if k != i {
        assert MovedBy(l, k, i, j + 1) == MovedBy(l, k, i, j);
      }
    }
    var upper' := upper[es[j] := elem'[es[i]]];
    forall m | i <= m < |l|
      ensures var u := UpBy(l, m, i, j + 1);
              && (u.Some? <==> es[m] in upper')
              && (u.Some? ==> es[u.value] in elem' && upper'[es[m]] == elem'[es[u.value]])
    {
      if m != j {
        assert UpBy(l, m, i, j + 1) == UpBy(l, m, i, j);
        assert es[m] != es[j];
      } else {
        assert UpBy(l, m, i, j + 1) == Some(i);
      }
    }
  }

  lemma NextRow(l: seq<Entry>, es: seq<nat>, elem: map<nat, nat>, upper: map<nat, nat>, order: seq<File>, i: nat)
    requires |l| == |es| && i < |l|
    requires LevelsBy(l, es, elem, order, i, |l|) && UppersBy(l, es, elem, upper, i, |l|)
    ensures LevelsBy(l, es, elem, order, i + 1, i + 2) && UppersBy(l, es, elem, upper, i + 1, i + 2)
  {
    forall k | 0 <= k < |l| ensures MovedBy(l, k, i + 1, i + 2) == MovedBy(l, k, i, |l|) {
    }
    forall m | i + 1 <= m < |l| ensures UpBy(l, m, i + 1, i + 2) == UpBy(l, m, i, |l|) {
    }
  }

  lemma FirstRow(l: seq<Entry>, es: seq<nat>, elem: map<nat, nat>, upper: map<nat, nat>, order: seq<File>)
    requires |l| == |es|
    requires forall k :: 0 <= k < |es| ==> es[k] !in elem && es[k] !in upper
    ensures LevelsBy(l, es, elem, order, 0, 1) && UppersBy(l, es, elem, upper, 0, 1)
  {
  }

  lemma LastRow(l: seq<Entry>, es: seq<nat>, elem: map<nat, nat>, order: seq<File>, j: nat)
    requires |l| == |es| && LevelsBy(l, es, elem, order, |l|, j)
    ensures HostPlaced(l, es, elem, order)
  {
    forall k | 0 <= k < |l| ensures MovedBy(l, k, |l|, j) == IsPriority(l, k) {
    }
  }

  /** Entries outside `ids` keep what they had. */
  ghost predicate KeepsOthers(m: map<nat, nat>, m': map<nat, nat>, ids: set<nat>)
  {
    forall id :: id !in ids ==> SameAt(m, m', id)
  }

  ghost predicate SameAt(m: map<nat, nat>, m': map<nat, nat>, id: nat)
  {
    (id in m <==> id in m') && (id in m ==> m[id] == m'[id])
  }

  ghost function Ids(es: seq<nat>): set<nat>
  {
    set id | id in es
  }

  /** Placing the entries of other hosts does not move a host's entries. */
  lemma HostStaysPlaced(l: seq<Entry>, es: seq<nat>, elem: map<nat, nat>, order: seq<File>,
                        elem': map<nat, nat>, order': seq<File>, others: set<nat>)
    requires |l| == |es| && HostPlaced(l, es, elem, order)
    requires KeepsOthers(elem, elem', others) && SamePrefix(order, order')
    requires forall k :: 0 <= k < |es| ==> es[k] !in others
    ensures HostPlaced(l, es, elem', order')
  {
    forall k | 0 <= k < |l|
      ensures if IsPriority(l, k) then AtLevel(l, es, k, elem', order') else es[k] !in elem'
    {
      assert SameAt(elem, elem', es[k]);
    }
  }

  // ---------------------------------------------------------------- the placement, pair by pair

  /** The two lists of files and the `_elem` and `_upper` of the entries. */
  datatype Placement = Placement(order: seq<File>, withFilters: seq<File>, elem: map<nat, nat>, upper: map<nat, nat>)

  ghost predicate Sound(st: Placement, entries: seq<Entry>)
  {
    && FilesOk(st.order, st.elem, entries, false)
    && FilesOk(st.withFilters, st.elem, entries, true)
    && Alternates(st.order)
    && UpperOk(st.upper, st.order, entries)
  }

  function StartOf(st: Placement, id: nat): nat
  {
    if id in st.upper then st.upper[id] else 0
  }

  /** findOrCreateMatchFile on the priority files. */
  function MoveByOverlap(st: Placement, entries: seq<Entry>, id: nat): Placement
    requires id < |entries|
  {
    var at := PlaceIndex(st.order, StartOf(st, id), entries[id]);
    st.(order := Place(st.order, at, entries[id], id), elem := st.elem[id := at])
  }

  /** findOrCreateMatchFile on the files with filters. */
  function MoveByFilter(st: Placement, entries: seq<Entry>, id: nat): Placement
    requires id < |entries|
  {
    var at := PlaceIndex(st.withFilters, StartOf(st, id), entries[id]);
    st.(withFilters := Place(st.withFilters, at, entries[id], id), elem := st.elem[id := at])
  }

  /** findOrCreateMatchFileIfOverlaps */
  function PlainPair(st: Placement, entries: seq<Entry>, id1: nat, id2: nat): Placement
    requires id1 < |entries| && id2 < |entries|
  {
    if Overlaps(entries[id1], entries[id2]) || entries[id1].headers != entries[id2].headers then
      var st1 := if id1 in st.elem then st else MoveByOverlap(st, entries, id1);
      st1.(upper := st1.upper[id2 := st1.elem[id1]])
    else st
  }

  function IfFiltered(st: Placement, entries: seq<Entry>, id: nat): Placement
    requires id < |entries|
  {
    if HasFilter(entries[id]) && id !in st.elem then MoveByFilter(st, entries, id) else st
  }

  /** The body of the loop over pairs of entries of a host. */
  function Pair(st: Placement, entries: seq<Entry>, id1: nat, id2: nat): Placement
    requires id1 < |entries| && id2 < |entries|
  {
    if !HasFilter(entries[id1]) && !HasFilter(entries[id2]) then PlainPair(st, entries, id1, id2)
    else IfFiltered(IfFiltered(st, entries, id1), entries, id2)
  }

  ghost predicate IsHostList(es: seq<nat>, entries: seq<Entry>)
  {
    NoDup(es) && forall k :: 0 <= k < |es| ==> es[k] < |entries|
  }

  // ---------------------------------------------------------------- what placing keeps

  ghost predicate Extends(st: Placement, st': Placement, ids: set<nat>)
  {
    && st.elem.Keys <= st'.elem.Keys
    && KeepsOthers(st.elem, st'.elem, ids) && KeepsOthers(st.upper, st'.upper, ids)
    && SamePrefix(st.order, st'.order)
  }

  lemma KeepsOthersTwice(m: map<nat, nat>, m': map<nat, nat>, m'': map<nat, nat>, ids: set<nat>)
    requires KeepsOthers(m, m', ids) && KeepsOthers(m', m'', ids)
    ensures KeepsOthers(m, m'', ids)
  {
    forall id | id !in ids ensures SameAt(m, m'', id) {
      assert SameAt(m, m', id) && SameAt(m', m'', id);
    }
  }

  lemma ExtendsTwice(st: Placement, st': Placement, st'': Placement, ids: set<nat>)
    requires Extends(st, st', ids) && Extends(st', st'', ids)
    ensures Extends(st, st'', ids)
  {
    KeepsOthersTwice(st.elem, st'.elem, st''.elem, ids);
    KeepsOthersTwice(st.upper, st'.upper, st''.upper, ids);
  }

  lemma MoveByOverlapSound(st: Placement, entries: seq<Entry>, id: nat)
    requires Sound(st, entries) && id < |entries| && id !in st.elem
    requires !HasFilter(entries[id]) && IsSplit(entries[id].match_)
    ensures Sound(MoveByOverlap(st, entries, id), entries)
  {
    var at := PlaceIndex(st.order, StartOf(st, id), entries[id]);
    PlaceOk(st.order, st.elem, entries, false, StartOf(st, id), id);
    OtherKindOk(st.withFilters, st.elem, entries, true, id, at);
    PlaceAlternates(st.order, StartOf(st, id), entries[id], id);
  }

  lemma IfFilteredSound(st: Placement, entries: seq<Entry>, id: nat)
    requires Sound(st, entries) && id < |entries|
    ensures Sound(IfFiltered(st, entries, id), entries)
    ensures Extends(st, IfFiltered(st, entries, id), {id})
    ensures IfFiltered(st, entries, id).upper == st.upper
    ensures HasFilter(entries[id]) ==> id in IfFiltered(st, entries, id).elem
  {
    hide FilesOk, Alternates, PlaceIndex, Place;
    if HasFilter(entries[id]) && id !in st.elem {
      PlaceOk(st.withFilters, st.elem, entries, true, StartOf(st, id), id);
      OtherKindOk(st.order, st.elem, entries, false, id, PlaceIndex(st.withFilters, StartOf(st, id), entries[id]));
    }
  }

  lemma UpperStays(st: Placement, entries: seq<Entry>, id1: nat, id2: nat)
    requires Sound(st, entries) && id1 in st.elem && id2 < |entries|
    requires !HasFilter(entries[id1]) && !HasFilter(entries[id2]) && Overlaps(entries[id1], entries[id2])
    ensures Sound(st.(upper := st.upper[id2 := st.elem[id1]]), entries)
  {
    var k := st.elem[id1];
    var p :| 0 <= p < |st.order[k].entries| && st.order[k].entries[p] == id1;
    assert Sits(st.order[k].entries[p], st.order[k], k, st.elem, entries, false);
  }

  lemma PlainPairSound(st: Placement, entries: seq<Entry>, id1: nat, id2: nat)
    requires Sound(st, entries) && id1 < |entries| && id2 < |entries|
    requires !HasFilter(entries[id1]) && !HasFilter(entries[id2])
    ensures Sound(PlainPair(st, entries, id1, id2), entries)
  {
    if Overlaps(entries[id1], entries[id2]) {
      if id1 !in st.elem {
        MoveByOverlapSound(st, entries, id1);
        UpperStays(MoveByOverlap(st, entries, id1), entries, id1, id2);
      } else {
        UpperStays(st, entries, id1, id2);
      }
    }
  }

  lemma PlainPairExtends(st: Placement, entries: seq<Entry>, id1: nat, id2: nat)
    requires id1 < |entries| && id2 < |entries|
    ensures Extends(st, PlainPair(st, entries, id1, id2), {id1, id2})
  {
  }

  lemma Widen(st: Placement, st': Placement, ids: set<nat>, more: set<nat>)
    requires Extends(st, st', ids) && ids <= more
    ensures Extends(st, st', more)
  {
  }

  /** One step keeps every placed entry where its file is, and touches two entries only. */
  lemma PairSound(st: Placement, entries: seq<Entry>, id1: nat, id2: nat)
    requires Sound(st, entries) && id1 < |entries| && id2 < |entries|
    ensures Sound(Pair(st, entries, id1, id2), entries)
    ensures Extends(st, Pair(st, entries, id1, id2), {id1, id2})
    ensures HasFilter(entries[id1]) ==> id1 in Pair(st, entries, id1, id2).elem
    ensures HasFilter(entries[id2]) ==> id2 in Pair(st, entries, id1, id2).elem
  {
    if !HasFilter(entries[id1]) && !HasFilter(entries[id2]) {
      PlainPairSound(st, entries, id1, id2);
      PlainPairExtends(st, entries, id1, id2);
    } else {
      var st1 := IfFiltered(st, entries, id1);
      var st2 := IfFiltered(st1, entries, id2);
      IfFilteredSound(st, entries, id1);
      IfFilteredSound(st1, entries, id2);
      Widen(st, st1, {id1}, {id1, id2});
      Widen(st1, st2, {id2}, {id1, id2});
      ExtendsTwice(st, st1, st2, {id1, id2});
    }
  }

  /** The entries with a filter from position `from` to `to` have been moved. */
  ghost predicate FilteredMoved(elem: map<nat, nat>, entries: seq<Entry>, es: seq<nat>, from: nat, to: nat)
    requires to <= |es| && forall k :: 0 <= k < |es| ==> es[k] < |entries|
  {
    forall k :: from <= k < to && HasFilter(entries[es[k]]) ==> es[k] in elem
  }

  /** Joining a step on two entries to what was done before it. */
  lemma JoinStep(st: Placement, before: Placement, after: Placement, entries: seq<Entry>, es: seq<nat>, i: nat, j: nat)
    requires IsHostList(es, entries) && i < j < |es|
    requires Extends(st, before, Ids(es)) && Extends(before, after, {es[i], es[j]})
    requires j > i + 1 ==> FilteredMoved(before.elem, entries, es, i, j)
    requires HasFilter(entries[es[i]]) ==> es[i] in after.elem
    requires HasFilter(entries[es[j]]) ==> es[j] in after.elem
    ensures Extends(st, after, Ids(es))
    ensures FilteredMoved(after.elem, entries, es, i, j + 1)
  {
    Widen(before, after, {es[i], es[j]}, Ids(es));
    ExtendsTwice(st, before, after, Ids(es));
  }

  // ---------------------------------------------------------------- levels of a host without filters

  ghost predicate Progress(l: seq<Entry>, es: seq<nat>, st: Placement, i: nat, j: nat)
    requires |l| == |es|
  {
    LevelsBy(l, es, st.elem, st.order, i, j) && UppersBy(l, es, st.elem, st.upper, i, j)
  }

  lemma PairProgress(st: Placement, entries: seq<Entry>, es: seq<nat>, l: seq<Entry>, i: nat, j: nat)
    requires Sound(st, entries) && IsHostList(es, entries) && l == EntriesOf(entries, es) && FilterFree(l)
    requires i < j < |es| && Progress(l, es, st, i, j)
    ensures Progress(l, es, Pair(st, entries, es[i], es[j]), i, j + 1)
  {
    if Overlaps(l[i], l[j]) {
      var st1 := if es[i] in st.elem then st else MoveByOverlap(st, entries, es[i]);
      if es[i] !in st.elem {
        PlacedAtLevel(l, es, entries, st.elem, st.upper, st.order, i, j);
      } else {
        assert MovedBy(l, i, i, j);
      }
      NextPairOverlaps(l, es, st.elem, st.upper, st.order, st1.elem, st1.order, i, j);
    } else {
      NextPairApart(l, es, st.elem, st.upper, st.order, i, j);
    }
  }

  /** Everything known about a host after the pairs up to (i, j). */
  ghost predicate After(st0: Placement, st: Placement, entries: seq<Entry>, es: seq<nat>, l: seq<Entry>, i: nat, j: nat)
    requires |l| == |es|
  {
    && Sound(st, entries)
    && Extends(st0, st, Ids(es))
    && (FilterFree(l) ==> Progress(l, es, st, i, j))
  }

  // ---------------------------------------------------------------- the whole placement, as a function

  const NOTHING_PLACED := Placement([], [], map[], map[])

  /** The pairs of entry `i` with the entries after it and before `j`. */
  function Row(st: Placement, entries: seq<Entry>, es: seq<nat>, i: nat, j: nat): Placement
    requires i < j <= |es| && forall k :: 0 <= k < |es| ==> es[k] < |entries|
    decreases j
  {
    if j == i + 1 then st else Pair(Row(st, entries, es, i, j - 1), entries, es[i], es[j - 1])
  }

  /** All pairs of the first `i` entries. */
  function Rows(st: Placement, entries: seq<Entry>, es: seq<nat>, i: nat): Placement
    requires i <= |es| && forall k :: 0 <= k < |es| ==> es[k] < |entries|
  {
    if i == 0 then st else Row(Rows(st, entries, es, i - 1), entries, es, i - 1, |es|)
  }

  /** A host that has a single entry is placed only if that entry has a filter. */
  function Single(st: Placement, entries: seq<Entry>, es: seq<nat>): Placement
    requires forall k :: 0 <= k < |es| ==> es[k] < |entries|
  {
    if |es| == 1 then IfFiltered(st, entries, es[0]) else st
  }

  function PlaceHost(st: Placement, entries: seq<Entry>, es: seq<nat>): Placement
    requires forall k :: 0 <= k < |es| ==> es[k] < |entries|
  {
    Rows(Single(st, entries, es), entries, es, |es|)
  }

  /** The entries in the lists exist. */
  predicate ListsOk(lists: map<string, seq<nat>>, entries: seq<Entry>)
  {
    forall h, k :: h in lists && 0 <= k < |lists[h]| ==> lists[h][k] < |entries|
  }

  /** The hosts one after the other, in the order of `hosts`. */
  function PlaceHosts(entries: seq<Entry>, lists: map<string, seq<nat>>, hosts: seq<string>): Placement
    requires ListsOk(lists, entries) && forall k :: 0 <= k < |hosts| ==> hosts[k] in lists
  {
    if hosts == [] then NOTHING_PLACED
    else
      var n := |hosts| - 1;
      PlaceHost(PlaceHosts(entries, lists, hosts[..n]), entries, lists[hosts[n]])
  }

  lemma {:induction false} RowAfter(st0: Placement, st: Placement, entries: seq<Entry>, es: seq<nat>, l: seq<Entry>, i: nat, j: nat)
    requires IsHostList(es, entries) && l == EntriesOf(entries, es) && i < j <= |es|
    requires After(st0, st, entries, es, l, i, i + 1)
    ensures After(st0, Row(st, entries, es, i, j), entries, es, l, i, j)
    ensures j > i + 1 ==> FilteredMoved(Row(st, entries, es, i, j).elem, entries, es, i, j)
    ensures st.elem.Keys <= Row(st, entries, es, i, j).elem.Keys
    decreases j
  {
    hide After, Pair, FilteredMoved, NoDup;
    if j > i + 1 {
      RowAfter(st0, st, entries, es, l, i, j - 1);
      StepAfter(st0, Row(st, entries, es, i, j - 1), entries, es, l, i, j - 1);
    }
  }

  /** One pair more. */
  lemma StepAfter(st0: Placement, st: Placement, entries: seq<Entry>, es: seq<nat>, l: seq<Entry>, i: nat, j: nat)
    requires IsHostList(es, entries) && l == EntriesOf(entries, es) && i < j < |es|
    requires After(st0, st, entries, es, l, i, j)
    requires j > i + 1 ==> FilteredMoved(st.elem, entries, es, i, j)
    ensures After(st0, Pair(st, entries, es[i], es[j]), entries, es, l, i, j + 1)
    ensures FilteredMoved(Pair(st, entries, es[i], es[j]).elem, entries, es, i, j + 1)
    ensures st.elem.Keys <= Pair(st, entries, es[i], es[j]).elem.Keys
  {
    hide Sound, Progress, Pair;
    if FilterFree(l) {
      PairProgress(st, entries, es, l, i, j);
    }
    PairSound(st, entries, es[i], es[j]);
    JoinStep(st0, st, Pair(st, entries, es[i], es[j]), entries, es, i, j);
  }

  lemma {:induction false} RowsAfter(st0: Placement, st: Placement, entries: seq<Entry>, es: seq<nat>, l: seq<Entry>, i: nat)
    requires IsHostList(es, entries) && l == EntriesOf(entries, es) && i <= |es|
    requires After(st0, st, entries, es, l, 0, 1)
    ensures After(st0, Rows(st, entries, es, i), entries, es, l, i, i + 1)
    ensures i > 0 && |es| > 1 ==> FilteredMoved(Rows(st, entries, es, i).elem, entries, es, 0, |es|)
    ensures st.elem.Keys <= Rows(st, entries, es, i).elem.Keys
  {
    hide After, Row, NoDup;
    if i > 0 {
      RowsAfter(st0, st, entries, es, l, i - 1);
      var before := Rows(st, entries, es, i - 1);
      RowAfter(st0, before, entries, es, l, i - 1, |es|);
      RowEnd(st0, Row(before, entries, es, i - 1, |es|), entries, es, l, i - 1);
    }
  }

  lemma RowEnd(st0: Placement, st: Placement, entries: seq<Entry>, es: seq<nat>, l: seq<Entry>, i: nat)
    requires |l| == |es| && i < |es| && After(st0, st, entries, es, l, i, |es|)
    ensures After(st0, st, entries, es, l, i + 1, i + 2)
  {
    hide Sound, Extends, LevelsBy, UppersBy;
    if FilterFree(l) {
      NextRow(l, es, st.elem, st.upper, st.order, i);
    }
  }

  /** What placing a host does: its own entries get their place, and no other entry moves. */
  lemma HostPlacement(st: Placement, entries: seq<Entry>, es: seq<nat>, l: seq<Entry>)
    requires IsHostList(es, entries) && l == EntriesOf(entries, es) && Sound(st, entries)
    requires forall k :: 0 <= k < |es| ==> es[k] !in st.elem && es[k] !in st.upper
    ensures var st' := PlaceHost(st, entries, es);
            && Sound(st', entries) && Extends(st, st', Ids(es))
            && (FilterFree(l) ==> HostPlaced(l, es, st'.elem, st'.order))
            && FilteredMoved(st'.elem, entries, es, 0, |es|)
  {
    hide Sound, Rows, IfFiltered;
    SingleAfter(st, entries, es, l);
    RowsAfter(st, Single(st, entries, es), entries, es, l, |es|);
    var st' := PlaceHost(st, entries, es);
    if FilterFree(l) {
      LastRow(l, es, st'.elem, st'.order, |es| + 1);
    }
  }

  lemma SingleAfter(st: Placement, entries: seq<Entry>, es: seq<nat>, l: seq<Entry>)
    requires IsHostList(es, entries) && l == EntriesOf(entries, es) && Sound(st, entries)
    requires forall k :: 0 <= k < |es| ==> es[k] !in st.elem && es[k] !in st.upper
    ensures After(st, Single(st, entries, es), entries, es, l, 0, 1)
    ensures |es| == 1 ==> FilteredMoved(Single(st, entries, es).elem, entries, es, 0, 1)
  {
    hide Sound;
    FirstRow(l, es, st.elem, st.upper, st.order);
    if |es| == 1 {
      IfFilteredSound(st, entries, es[0]);
      Widen(st, IfFiltered(st, entries, es[0]), {es[0]}, Ids(es));
      assert FilterFree(l) ==> !HasFilter(l[0]);
    }
  }

  // ---------------------------------------------------------------- the type of the first priority file

  /** Two entries without filter that cannot share a file. */
  predicate PlainOver(e1: Entry, e2: Entry)
  {
    !HasFilter(e1) && !HasFilter(e2) && Overlaps(e1, e2)
  }

  /** Entry `i` is moved because of one of the entries after it and before `j`. */
  ghost predicate MovedIn(l: seq<Entry>, i: nat, j: nat)
    requires i < j <= |l|
  {
    exists m :: i < m < j && PlainOver(l[i], l[m])
  }

  /** Type of the first entry moved, among the first `i`. */
  ghost function FirstBy(l: seq<Entry>, i: nat): Option<MatchType>
    requires i <= |l|
  {
    if i == 0 then None
    else if FirstBy(l, i - 1).Some? then FirstBy(l, i - 1)
    else if MovedIn(l, i - 1, |l|) then Some(l[i - 1].match_)
    else None
  }

  /** Type of the first entry of a host that is moved to a priority file, if one is. */
  ghost function FirstMoved(l: seq<Entry>): Option<MatchType>
  {
    FirstBy(l, |l|)
  }

  /** Type of the first priority file, if there is one. */
  ghost function HeadOf(order: seq<File>): Option<MatchType>
  {
    if order == [] then None else Some(order[0].match_)
  }

  ghost function OrElse(f: Option<MatchType>, g: Option<MatchType>): Option<MatchType>
  {
    if f.Some? then f else g
  }

  lemma PairHead(st: Placement, entries: seq<Entry>, id1: nat, id2: nat)
    requires Sound(st, entries) && id1 < |entries| && id2 < |entries|
    ensures HeadOf(Pair(st, entries, id1, id2).order) ==
              OrElse(HeadOf(st.order), if PlainOver(entries[id1], entries[id2]) then Some(entries[id1].match_) else None)
  {
    PairSound(st, entries, id1, id2);
    if st.order == [] && PlainOver(entries[id1], entries[id2]) {
      assert id1 !in st.elem && id1 !in st.upper;
    }
  }

  lemma {:induction false} RowHead(st: Placement, entries: seq<Entry>, es: seq<nat>, l: seq<Entry>, i: nat, j: nat)
    requires IsHostList(es, entries) && l == EntriesOf(entries, es) && i < j <= |es| && Sound(st, entries)
    ensures Sound(Row(st, entries, es, i, j), entries)
    ensures HeadOf(Row(st, entries, es, i, j).order) ==
              OrElse(HeadOf(st.order), if MovedIn(l, i, j) then Some(l[i].match_) else None)
    decreases j
  {
    hide Sound, Pair, NoDup, PlainOver;
    if j > i + 1 {
      RowHead(st, entries, es, l, i, j - 1);
      var before := Row(st, entries, es, i, j - 1);
      PairSound(before, entries, es[i], es[j - 1]);
      PairHead(before, entries, es[i], es[j - 1]);
      assert MovedIn(l, i, j) <==> MovedIn(l, i, j - 1) || PlainOver(l[i], l[j - 1]);
    }
  }

  lemma {:induction false} RowsHead(st: Placement, entries: seq<Entry>, es: seq<nat>, l: seq<Entry>, i: nat)
    requires IsHostList(es, entries) && l == EntriesOf(entries, es) && i <= |es| && Sound(st, entries)
    ensures Sound(Rows(st, entries, es, i), entries)
    ensures HeadOf(Rows(st, entries, es, i).order) == OrElse(HeadOf(st.order), FirstBy(l, i))
  {
    hide Sound, Row, NoDup, MovedIn;
    if i > 0 {
      RowsHead(st, entries, es, l, i - 1);
      RowHead(Rows(st, entries, es, i - 1), entries, es, l, i - 1, |es|);
    }
  }

  /** The first priority file stays the first, and there is one as soon as a host has an entry to move. */
  lemma HostHead(st: Placement, entries: seq<Entry>, es: seq<nat>, l: seq<Entry>)
    requires IsHostList(es, entries) && l == EntriesOf(entries, es) && Sound(st, entries)
    ensures Sound(PlaceHost(st, entries, es), entries)
    ensures HeadOf(PlaceHost(st, entries, es).order) == OrElse(HeadOf(st.order), FirstMoved(l))
  {
    hide Sound, Rows, NoDup, FirstBy;
    if |es| == 1 {
      IfFilteredSound(st, entries, es[0]);
    }
    RowsHead(Single(st, entries, es), entries, es, l, |es|);
  }

  /** Type of the first entry moved, host by host in the order of `hosts`. */
  ghost function FirstOf(entries: seq<Entry>, lists: map<string, seq<nat>>, hosts: seq<string>): Option<MatchType>
    requires ListsOk(lists, entries) && forall k :: 0 <= k < |hosts| ==> hosts[k] in lists
  {
    if hosts == [] then None
    else
      var n := |hosts| - 1;
      OrElse(FirstOf(entries, lists, hosts[..n]), FirstMoved(EntriesOf(entries, lists[hosts[n]])))
  }

  /** The types that the first priority file can have: those of the first entries moved, host by host. */
  ghost predicate CanBeFirst(entries: seq<Entry>, lists: map<string, seq<nat>>, t: MatchType)
    requires ListsOk(lists, entries)
  {
    exists h :: h in lists && FirstMoved(EntriesOf(entries, lists[h])) == Some(t)
  }

  lemma {:induction false} FirstOfCanBe(entries: seq<Entry>, lists: map<string, seq<nat>>, hosts: seq<string>)
    requires ListsOk(lists, entries) && forall k :: 0 <= k < |hosts| ==> hosts[k] in lists
    ensures FirstOf(entries, lists, hosts).Some? ==> CanBeFirst(entries, lists, FirstOf(entries, lists, hosts).value)
    ensures FirstOf(entries, lists, hosts).None? ==>
              forall k :: 0 <= k < |hosts| ==> FirstMoved(EntriesOf(entries, lists[hosts[k]])).None?
  {
    if hosts != [] {
      FirstOfCanBe(entries, lists, hosts[..|hosts| - 1]);
    }
  }

  /** The host that comes first decides, if it has an entry to move. */
  lemma {:induction false} FirstOfHead(entries: seq<Entry>, lists: map<string, seq<nat>>, hosts: seq<string>)
    requires ListsOk(lists, entries) && (forall k :: 0 <= k < |hosts| ==> hosts[k] in lists) && hosts != []
    requires FirstMoved(EntriesOf(entries, lists[hosts[0]])).Some?
    ensures FirstOf(entries, lists, hosts) == FirstMoved(EntriesOf(entries, lists[hosts[0]]))
  {
    if |hosts| > 1 {
      FirstOfHead(entries, lists, hosts[..|hosts| - 1]);
    } else {
      assert hosts[..0] == [];
    }
  }

  /** Without filters the first entry moved has the type of the first priority entry. */
  lemma {:induction false} FirstIsPriority(l: seq<Entry>, i: nat)
    requires FilterFree(l) && i <= |l|
    ensures FirstBy(l, i).None? <==> forall k :: 0 <= k < i ==> !IsPriority(l, k)
    ensures FirstBy(l, i).Some? ==> exists k :: 0 <= k < i && IsPriority(l, k) && l[k].match_ == FirstBy(l, i).value
                                                && forall m :: 0 <= m < k ==> !IsPriority(l, m)
  {
    if i > 0 {
      FirstIsPriority(l, i - 1);
      assert MovedIn(l, i - 1, |l|) <==> IsPriority(l, i - 1);
    }
  }
}
