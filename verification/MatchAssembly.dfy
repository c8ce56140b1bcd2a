/**
 The final list of match files: files with filters, the exact file, the priority files and
 the default ones, each sorted; and what HAProxy finds when it searches them in order.
 */
module MatchAssembly {
  import opened Model
  import opened Ordering
  import opened PathPrecedence
  import opened MatchPlacement

  // ---------------------------------------------------------------- every entry in one file

  /** How many times the files list an entry. */
  function Occurs(files: seq<File>, id: nat): nat
  {
    if files == [] then 0
    else Occurs(files[..|files| - 1], id) + multiset(files[|files| - 1].entries)[id]
  }

  lemma {:induction false} OccursConcat(a: seq<File>, b: seq<File>, id: nat)
    ensures Occurs(a + b, id) == Occurs(a, id) + Occurs(b, id)
  {
    if b == [] {
      assert a + b == a;
    } else {
      var n := |b| - 1;
      assert (a + b)[..|a + b| - 1] == a + b[..n];
      OccursConcat(a, b[..n], id);
    }
  }

  lemma {:induction false} OccursWhere(files: seq<File>, id: nat)
    ensures Occurs(files, id) > 0 <==> exists k :: 0 <= k < |files| && id in files[k].entries
  {
    if files != [] {
      var n := |files| - 1;
      OccursWhere(files[..n], id);
      assert id in files[n].entries <==> multiset(files[n].entries)[id] > 0;
      if k :| 0 <= k < |files| && id in files[k].entries {
        assert k < n ==> files[..n][k] == files[k];
      }
    }
  }

  /** An entry in two files is counted twice. */
  lemma {:induction false} OccursTwice(files: seq<File>, id: nat, k: nat, k': nat)
    requires k < k' < |files| && id in files[k].entries && id in files[k'].entries
    ensures Occurs(files, id) >= 2
  {
    var n := |files| - 1;
    assert id in files[..n][k].entries;
    if k' == n {
      OccursWhere(files[..n], id);
      assert id in multiset(files[n].entries);
    } else {
      OccursTwice(files[..n], id, k, k');
    }
  }

  lemma {:induction false} NoDupCount(s: seq<nat>, x: nat)
    requires NoDup(s)
    ensures multiset(s)[x] == if x in s then 1 else 0
  {
    if s != [] {
      NoDupCount(s[1..], x);
      assert s == [s[0]] + s[1..];
      assert s[0] !in s[1..];
    }
  }

  lemma {:induction false} OccursPlaced(files: seq<File>, elem: map<nat, nat>, entries: seq<Entry>, filtered: bool, id: nat, n: nat)
    requires FilesOk(files, elem, entries, filtered) && n <= |files|
    ensures Occurs(files[..n], id) == if id in elem && HasFilter(entries[id]) == filtered && elem[id] < n then 1 else 0
  {
    if n > 0 {
      OccursPlaced(files, elem, entries, filtered, id, n - 1);
      assert files[..n][..n - 1] == files[..n - 1];
      NoDupCount(files[n - 1].entries, id);
      if id in files[n - 1].entries {
        var p :| 0 <= p < |files[n - 1].entries| && files[n - 1].entries[p] == id;
        assert Sits(files[n - 1].entries[p], files[n - 1], n - 1, elem, entries, filtered);
      }
    }
  }

  // ---------------------------------------------------------------- default files

  predicate IsKept(id: nat, m: MatchType, elem: map<nat, nat>, entries: seq<Entry>)
  {
    id < |entries| && entries[id].match_ == m && id !in elem
  }

  /** The entries of each type that were not moved. */
  ghost predicate KeptOk(rawfiles: map<MatchType, seq<nat>>, elem: map<nat, nat>, entries: seq<Entry>)
  {
    && (forall m :: m in rawfiles ==> NoDup(rawfiles[m]))
    && (forall m, id: nat :: m in rawfiles ==> (id in rawfiles[m] <==> IsKept(id, m, elem, entries)))
    && (forall id :: 0 <= id < |entries| ==> entries[id].match_ in rawfiles)
  }

  function DefaultFile(m: MatchType, rawfiles: map<MatchType, seq<nat>>): seq<File>
  {
    if m in rawfiles && rawfiles[m] != [] then [File(m, None, false, rawfiles[m])] else []
  }

  /** The exact file goes to the front of the priority files. */
  function Front(ms: seq<MatchType>, rawfiles: map<MatchType, seq<nat>>): seq<File>
  {
    if ms == [] then []
    else
      var m := ms[|ms| - 1];
      (if m == Exact then DefaultFile(m, rawfiles) else []) + Front(ms[..|ms| - 1], rawfiles)
  }

  /** The other default files go to the back, in the configured order. */
  function Back(ms: seq<MatchType>, rawfiles: map<MatchType, seq<nat>>): seq<File>
  {
    if ms == [] then []
    else
      var m := ms[|ms| - 1];
      Back(ms[..|ms| - 1], rawfiles) + (if m != Exact then DefaultFile(m, rawfiles) else [])
  }

  /** `path-type-order`: the four types, each once. */
  predicate IsMatchOrder(ms: seq<MatchType>)
  {
    && (forall i, j :: 0 <= i < j < |ms| ==> ms[i] != ms[j])
    && Exact in ms && Prefix in ms && Begin in ms && Regex in ms
  }

  ghost predicate DistinctTypes(ms: seq<MatchType>)
  {
    forall i, j :: 0 <= i < j < |ms| ==> ms[i] != ms[j]
  }

  lemma {:induction false} OccursFront(ms: seq<MatchType>, rawfiles: map<MatchType, seq<nat>>, elem: map<nat, nat>, entries: seq<Entry>, id: nat)
    requires KeptOk(rawfiles, elem, entries) && DistinctTypes(ms) && id < |entries|
    ensures Occurs(Front(ms, rawfiles), id) == if Exact in ms && IsKept(id, Exact, elem, entries) then 1 else 0
  {
    hide KeptOk, Occurs, IsKept, DefaultFile;
    if ms == [] {
      OccursNone(id);
    } else {
      var n := |ms| - 1;
      OccursFront(ms[..n], rawfiles, elem, entries, id);
      assert ms == ms[..n] + [ms[n]];
      if ms[n] == Exact {
        OccursConcat(DefaultFile(Exact, rawfiles), Front(ms[..n], rawfiles), id);
        OccursInDefault(Exact, rawfiles, elem, entries, id);
      } else {
        assert Front(ms, rawfiles) == Front(ms[..n], rawfiles);
      }
    }
  }

  lemma {:induction false} OccursBack(ms: seq<MatchType>, rawfiles: map<MatchType, seq<nat>>, elem: map<nat, nat>, entries: seq<Entry>, id: nat)
    requires KeptOk(rawfiles, elem, entries) && DistinctTypes(ms) && id < |entries|
    ensures var m := entries[id].match_;
            Occurs(Back(ms, rawfiles), id) == if m in ms && m != Exact && id !in elem then 1 else 0
  {
    hide KeptOk, Occurs, DefaultFile;
    if ms == [] {
      OccursNone(id);
    } else {
      var n := |ms| - 1;
      OccursBack(ms[..n], rawfiles, elem, entries, id);
      assert ms == ms[..n] + [ms[n]];
      if ms[n] != Exact {
        OccursConcat(Back(ms[..n], rawfiles), DefaultFile(ms[n], rawfiles), id);
        OccursInDefault(ms[n], rawfiles, elem, entries, id);
      } else {
        assert Back(ms, rawfiles) == Back(ms[..n], rawfiles);
      }
    }
  }

  lemma OccursNone(id: nat)
    ensures Occurs([], id) == 0
  {
  }

  lemma OccursInDefault(m: MatchType, rawfiles: map<MatchType, seq<nat>>, elem: map<nat, nat>, entries: seq<Entry>, id: nat)
    requires KeptOk(rawfiles, elem, entries) && id < |entries|
    ensures Occurs(DefaultFile(m, rawfiles), id) == if IsKept(id, m, elem, entries) then 1 else 0
  {
    var f := DefaultFile(m, rawfiles);
    if m in rawfiles {
      NoDupCount(rawfiles[m], id);
    }
    if f != [] {
      assert f[..0] == [];
    }
  }

  function Assemble(st: Placement, ms: seq<MatchType>, rawfiles: map<MatchType, seq<nat>>): seq<File>
  {
    st.withFilters + (Front(ms, rawfiles) + st.order + Back(ms, rawfiles))
  }

  ghost predicate AllFiltered(elem: map<nat, nat>, entries: seq<Entry>)
  {
    forall id :: 0 <= id < |entries| && HasFilter(entries[id]) ==> id in elem
  }

  lemma AssembledParts(st: Placement, ms: seq<MatchType>, rawfiles: map<MatchType, seq<nat>>, id: nat)
    ensures Occurs(Assemble(st, ms, rawfiles), id) ==
            Occurs(st.withFilters, id) + Occurs(Front(ms, rawfiles), id) + Occurs(st.order, id) + Occurs(Back(ms, rawfiles), id)
  {
    var front, back := Front(ms, rawfiles), Back(ms, rawfiles);
    OccursConcat(st.withFilters, front + st.order + back, id);
    OccursConcat(front + st.order, back, id);
    OccursConcat(front, st.order, id);
  }

  lemma PlacedCount(files: seq<File>, elem: map<nat, nat>, entries: seq<Entry>, filtered: bool, id: nat)
    requires FilesOk(files, elem, entries, filtered)
    ensures Occurs(files, id) == if id in elem && HasFilter(entries[id]) == filtered then 1 else 0
  {
    OccursPlaced(files, elem, entries, filtered, id, |files|);
    assert files[..|files|] == files;
  }

  lemma DefaultCount(ms: seq<MatchType>, rawfiles: map<MatchType, seq<nat>>, elem: map<nat, nat>, entries: seq<Entry>, id: nat)
    requires KeptOk(rawfiles, elem, entries) && IsMatchOrder(ms) && id < |entries|
    ensures Occurs(Front(ms, rawfiles), id) + Occurs(Back(ms, rawfiles), id) == if id in elem then 0 else 1
  {
    OccursFront(ms, rawfiles, elem, entries, id);
    OccursBack(ms, rawfiles, elem, entries, id);
    assert entries[id].match_ in ms;
  }

  /** Entries moved to priority and filter files are exactly those the default files lost. */
  lemma AssembledOnce(st: Placement, ms: seq<MatchType>, rawfiles: map<MatchType, seq<nat>>, entries: seq<Entry>, id: nat)
    requires FilesOk(st.order, st.elem, entries, false) && FilesOk(st.withFilters, st.elem, entries, true)
    requires KeptOk(rawfiles, st.elem, entries) && IsMatchOrder(ms) && id < |entries|
    ensures Occurs(Assemble(st, ms, rawfiles), id) == 1
  {
    AssembledParts(st, ms, rawfiles, id);
    PlacedCount(st.order, st.elem, entries, false, id);
    PlacedCount(st.withFilters, st.elem, entries, true, id);
    DefaultCount(ms, rawfiles, st.elem, entries, id);
  }

  ghost predicate AllFit(files: seq<File>, entries: seq<Entry>)
  {
    forall k, p :: 0 <= k < |files| && 0 <= p < |files[k].entries| ==>
                     && files[k].entries[p] < |entries|
                     && entries[files[k].entries[p]].match_ == files[k].match_
                     && entries[files[k].entries[p]].headers == files[k].headers
  }

  lemma {:induction false} DefaultsFit(ms: seq<MatchType>, rawfiles: map<MatchType, seq<nat>>, elem: map<nat, nat>, entries: seq<Entry>)
    requires KeptOk(rawfiles, elem, entries) && AllFiltered(elem, entries)
    ensures AllFit(Front(ms, rawfiles), entries) && AllFit(Back(ms, rawfiles), entries)
    ensures forall k :: 0 <= k < |Front(ms, rawfiles)| ==> Front(ms, rawfiles)[k].match_ == Exact
    ensures forall k :: 0 <= k < |Back(ms, rawfiles)| ==> Back(ms, rawfiles)[k].match_ != Exact && Back(ms, rawfiles)[k].match_ in ms
  {
    if ms != [] {
      var n := |ms| - 1;
      DefaultsFit(ms[..n], rawfiles, elem, entries);
      var f := DefaultFile(ms[n], rawfiles);
      assert AllFit(f, entries) by {
        if f != [] {
          forall p | 0 <= p < |f[0].entries| ensures f[0].entries[p] < |entries| && Fits(f[0], entries[f[0].entries[p]]) {
            assert f[0].entries[p] in rawfiles[ms[n]];
            assert IsKept(f[0].entries[p], ms[n], elem, entries);
          }
        }
      }
    }
  }

  // ---------------------------------------------------------------- names of the files

  /**
   * A file with priority has its position in its name, any other only its match type, so the names of two files differ
   * unless both are without priority and of the same type.
   */
  ghost predicate NamesDiffer(files: seq<File>)
  {
    forall x, y :: 0 <= x < y < |files| && !files[x].priority && !files[y].priority ==> files[x].match_ != files[y].match_
  }

  lemma {:induction false} FrontTypes(ms: seq<MatchType>, rawfiles: map<MatchType, seq<nat>>)
    requires forall i, j :: 0 <= i < j < |ms| ==> ms[i] != ms[j]
    ensures NamesDiffer(Front(ms, rawfiles))
    ensures forall f :: f in Front(ms, rawfiles) ==> f.match_ == Exact && Exact in ms
  {
    if ms != [] {
      FrontTypes(ms[..|ms| - 1], rawfiles);
    }
  }

  lemma {:induction false} BackTypes(ms: seq<MatchType>, rawfiles: map<MatchType, seq<nat>>)
    requires forall i, j :: 0 <= i < j < |ms| ==> ms[i] != ms[j]
    ensures NamesDiffer(Back(ms, rawfiles))
    ensures forall f :: f in Back(ms, rawfiles) ==> f.match_ != Exact && f.match_ in ms
  {
    if ms != [] {
      BackTypes(ms[..|ms| - 1], rawfiles);
    }
  }

  lemma AssembledNames(st: Placement, ms: seq<MatchType>, rawfiles: map<MatchType, seq<nat>>, entries: seq<Entry>)
    requires Sound(st, entries) && IsMatchOrder(ms)
    ensures NamesDiffer(Assemble(st, ms, rawfiles))
  {
    FrontTypes(ms, rawfiles);
    BackTypes(ms, rawfiles);
    var front, back := Front(ms, rawfiles), Back(ms, rawfiles);
    assert forall k :: 0 <= k < |front| ==> front[k] in front;
    assert forall k :: 0 <= k < |back| ==> back[k] in back;
  }

  lemma AssembledFit(st: Placement, ms: seq<MatchType>, rawfiles: map<MatchType, seq<nat>>, entries: seq<Entry>)
    requires Sound(st, entries) && KeptOk(rawfiles, st.elem, entries) && AllFiltered(st.elem, entries)
    ensures AllFit(Assemble(st, ms, rawfiles), entries)
  {
    DefaultsFit(ms, rawfiles, st.elem, entries);
    forall k, p | 0 <= k < |st.order| && 0 <= p < |st.order[k].entries|
      ensures st.order[k].entries[p] < |entries| && Fits(st.order[k], entries[st.order[k].entries[p]])
    {
      assert Sits(st.order[k].entries[p], st.order[k], k, st.elem, entries, false);
    }
    forall k, p | 0 <= k < |st.withFilters| && 0 <= p < |st.withFilters[k].entries|
      ensures st.withFilters[k].entries[p] < |entries| && Fits(st.withFilters[k], entries[st.withFilters[k].entries[p]])
    {
      assert Sits(st.withFilters[k].entries[p], st.withFilters[k], k, st.elem, entries, true);
    }
    FitConcat(Front(ms, rawfiles), st.order, entries);
    FitConcat(Front(ms, rawfiles) + st.order, Back(ms, rawfiles), entries);
    FitConcat(st.withFilters, Front(ms, rawfiles) + st.order + Back(ms, rawfiles), entries);
  }

  lemma FitConcat(a: seq<File>, b: seq<File>, entries: seq<Entry>)
    requires AllFit(a, entries) && AllFit(b, entries)
    ensures AllFit(a + b, entries)
  {
  }
}
