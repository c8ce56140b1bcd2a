/**
 * The accounting shared by the containers of hosts and backends: what was added and deleted since the last commit.
 */
module ChangeTracking {

  /** The current items are the committed ones, without those deleted, with those added. */
  ghost predicate Balanced<T>(committed: map<string, T>, del: map<string, T>, add: map<string, T>, items: map<string, T>)
  {
    && (forall k :: k in del ==> k in committed && committed[k] == del[k])
    && (forall k :: k in add && k in committed ==> k in del)
    && items == (committed - del.Keys) + add
  }

  lemma AddedAreItems<T>(committed: map<string, T>, del: map<string, T>, add: map<string, T>, items: map<string, T>, k: string)
    requires Balanced(committed, del, add, items)
    ensures k in add ==> k in items && items[k] == add[k]
    ensures k in items && k !in add ==> k in committed && k !in del && committed[k] == items[k]
    ensures k in committed && k !in del ==> k in items && items[k] == committed[k] && k !in add
  {
  }

  /** A removal is tracked correctly exactly when the item is not one of those just added. */
  lemma RemovalBalanced<T>(committed: map<string, T>, del: map<string, T>, add: map<string, T>, items: map<string, T>, k: string)
    requires Balanced(committed, del, add, items) && k in items
    ensures Balanced(committed, del[k := items[k]], add, items - {k}) <==> k !in add
  {
    var del' := del[k := items[k]];
    AddedAreItems(committed, del, add, items, k);
    if k in add {
      assert k in (committed - del'.Keys) + add && k !in items - {k};
    } else {
      assert items - {k} == (committed - del'.Keys) + add;
    }
  }

  lemma AdditionBalanced<T>(committed: map<string, T>, del: map<string, T>, add: map<string, T>, items: map<string, T>, k: string, x: T)
    requires Balanced(committed, del, add, items) && k !in items
    ensures Balanced(committed, del, add[k := x], items[k := x])
  {
    AddedAreItems(committed, del, add, items, k);
    assert items[k := x] == (committed - del.Keys) + add[k := x];
  }

  /** An item both deleted and added may have its committed value back. */
  lemma SwapBalanced<T>(committed: map<string, T>, del: map<string, T>, add: map<string, T>, items: map<string, T>, k: string)
    requires Balanced(committed, del, add, items) && k in del && k in add
    ensures Balanced(committed, del - {k}, add - {k}, items[k := del[k]])
  {
    assert items[k := del[k]] == (committed - (del - {k}).Keys) + (add - {k});
  }

  lemma CommitBalanced<T>(items: map<string, T>)
    ensures Balanced(items, map[], map[], items)
  {
    assert items == (items - {}) + map[];
  }

  /** Deleting all the items at once is tracked correctly exactly when nothing changed since the commit. */
  lemma ClearBalanced<T>(committed: map<string, T>, items: map<string, T>)
    ensures Balanced(committed, items, map[], map[]) <==> items == committed
  {
    forall k ensures k in (committed - items.Keys) + map[] <==> k in committed && k !in items {
    }
    if Balanced(committed, items, map[], map[]) {
      assert forall k :: k in committed ==> k in items;
    }
  }

  /** The items of these names. */
  function Chosen<T>(m: map<string, T>, names: set<string>): map<string, T>
  {
    map k | k in m && k in names :: m[k]
  }

  lemma ChosenNext<T>(m: map<string, T>, names: set<string>, k: string, del: map<string, T>)
    ensures k in m && k !in names ==> (del + Chosen(m, names))[k := m[k]] == del + Chosen(m, names + {k})
    ensures !(k in m && k !in names) ==> Chosen(m, names) == Chosen(m, names + {k}) && m - names == m - (names + {k})
  {
    if k in m && k !in names {
      assert Chosen(m, names + {k}) == Chosen(m, names)[k := m[k]];
    }
  }

  function Members(names: seq<string>): set<string>
  {
    if names == [] then {} else Members(names[..|names| - 1]) + {names[|names| - 1]}
  }

  lemma {:induction false} MembersMeans(names: seq<string>, k: string)
    ensures k in Members(names) <==> k in names
  {
    if names != [] {
      MembersMeans(names[..|names| - 1], k);
      assert names == names[..|names| - 1] + [names[|names| - 1]];
    }
  }

  // ---------------------------------------------------------------- runs of removals and of swaps

  datatype Book<T> = Book(items: map<string, T>, add: map<string, T>, del: map<string, T>, committed: map<string, T>)

  ghost predicate InBalance<T>(b: Book<T>)
  {
    Balanced(b.committed, b.del, b.add, b.items)
  }

  lemma AddedIsItem<T>(b: Book<T>, k: string)
    requires InBalance(b)
    ensures k in b.add ==> k in b.items && b.items[k] == b.add[k]
  {
  }

  function Remove<T>(b: Book<T>, k: string): Book<T>
  {
    if k !in b.items then b else b.(items := b.items - {k}, del := b.del[k := b.items[k]])
  }

  function RemoveSeq<T>(b: Book<T>, names: seq<string>): Book<T>
  {
    if names == [] then b else Remove(RemoveSeq(b, names[..|names| - 1]), names[|names| - 1])
  }

  /** The items of these names were removed, and nothing else changed. */
  ghost predicate Removed<T>(b: Book<T>, b': Book<T>, names: set<string>)
  {
    b' == b.(items := b.items - names, del := b.del + Chosen(b.items, names))
  }

  lemma {:induction false} RemoveSeqRemoves<T>(b: Book<T>, names: seq<string>)
    ensures Removed(b, RemoveSeq(b, names), Members(names))
  {
    if names == [] {
      assert b.items - {} == b.items && b.del + Chosen(b.items, {}) == b.del;
    } else {
      var n := |names| - 1;
      RemoveSeqRemoves(b, names[..n]);
      RemoveNext(b, RemoveSeq(b, names[..n]), Members(names[..n]), names[n]);
    }
  }

  lemma RemoveNext<T>(b: Book<T>, b': Book<T>, names: set<string>, k: string)
    requires Removed(b, b', names)
    ensures Removed(b, Remove(b', k), names + {k})
  {
    ChosenNext(b.items, names, k, b.del);
    assert (b.items - names) - {k} == b.items - (names + {k});
  }

  /** Removals are tracked correctly exactly when no item is one of those just added. */
  lemma {:induction false} RemoveSeqBalance<T>(b: Book<T>, names: seq<string>)
    requires InBalance(b)
    ensures InBalance(RemoveSeq(b, names)) <==> forall k :: k in names ==> k !in b.add
  {
    RemoveSeqRemoves(b, names);
    if forall k :: k in names ==> k !in b.add {
      RemoveSeqKeepsBalance(b, names);
    } else {
      var k :| k in names && k in b.add;
      MembersMeans(names, k);
      var b' := RemoveSeq(b, names);
      assert k in (b'.committed - b'.del.Keys) + b'.add && k !in b'.items;
    }
  }

  lemma {:induction false} RemoveSeqKeepsBalance<T>(b: Book<T>, names: seq<string>)
    requires InBalance(b) && forall k :: k in names ==> k !in b.add
    ensures InBalance(RemoveSeq(b, names))
  {
    if names != [] {
      var n := |names| - 1;
      RemoveSeqKeepsBalance(b, names[..n]);
      RemoveSeqRemoves(b, names[..n]);
      var b' := RemoveSeq(b, names[..n]);
      if names[n] in b'.items {
        RemovalBalanced(b'.committed, b'.del, b'.add, b'.items, names[n]);
      }
    }
  }

  /** An item both deleted and added has its committed value back. */
  function Swap<T>(b: Book<T>, k: string): Book<T>
  {
    if k !in b.del then b else b.(items := b.items[k := b.del[k]], add := b.add - {k}, del := b.del - {k})
  }

  function SwapAll<T>(b: Book<T>, names: seq<string>): Book<T>
  {
    if names == [] then b else Swap(SwapAll(b, names[..|names| - 1]), names[|names| - 1])
  }

  /** The deleted items of these names are back, and nothing else changed. */
  ghost predicate Swapped<T>(b: Book<T>, b': Book<T>, names: set<string>)
  {
    b' == b.(items := b.items + Chosen(b.del, names), add := b.add - names, del := b.del - names)
  }

  lemma {:induction false} SwapAllSwaps<T>(b: Book<T>, names: seq<string>)
    requires forall k :: k in names ==> k in b.del && k in b.add
    ensures Swapped(b, SwapAll(b, names), Members(names))
    ensures InBalance(b) ==> InBalance(SwapAll(b, names))
  {
    if names == [] {
      assert b.items + Chosen(b.del, {}) == b.items;
    } else {
      var n := |names| - 1;
      SwapAllSwaps(b, names[..n]);
      SwapNext(b, SwapAll(b, names[..n]), Members(names[..n]), names[n]);
    }
  }

  lemma SwapAllOf<T>(b: Book<T>, order: seq<string>, names: set<string>)
    requires forall k :: k in order <==> k in names
    requires forall k :: k in names ==> k in b.del && k in b.add
    ensures Swapped(b, SwapAll(b, order), names)
    ensures InBalance(b) ==> InBalance(SwapAll(b, order))
  {
    SwapAllSwaps(b, order);
    forall k ensures k in Members(order) <==> k in names {
      MembersMeans(order, k);
    }
    assert Members(order) == names;
  }

  lemma SwapNext<T>(b: Book<T>, b': Book<T>, names: set<string>, k: string)
    requires Swapped(b, b', names) && k in b.del && k in b.add
    ensures Swapped(b, Swap(b', k), names + {k})
    ensures InBalance(b') ==> InBalance(Swap(b', k))
  {
    if k in names {
      assert names + {k} == names && k !in b'.del;
    } else {
      assert (b.del - names) - {k} == b.del - (names + {k});
      assert (b.add - names) - {k} == b.add - (names + {k});
      assert b.items + Chosen(b.del, names + {k}) == (b.items + Chosen(b.del, names))[k := b.del[k]];
      if InBalance(b') {
        SwapBalanced(b'.committed, b'.del, b'.add, b'.items, k);
      }
    }
  }

  /** What is not swapped is where it was. */
  lemma {:induction false} SwapAllElsewhere<T>(b: Book<T>, names: seq<string>, k: string)
    requires k !in names
    ensures var b' := SwapAll(b, names);
            && (k in b'.del <==> k in b.del) && (k in b.del ==> b'.del[k] == b.del[k])
            && (k in b'.add <==> k in b.add) && (k in b.add ==> b'.add[k] == b.add[k])
            && (k in b'.items <==> k in b.items) && (k in b.items ==> b'.items[k] == b.items[k])
  {
    if names != [] {
      SwapAllElsewhere(b, names[..|names| - 1], k);
    }
  }

  // ---------------------------------------------------------------- the order of operations within a cycle

  /** What an operation of a container does. */
  datatype Kind = Removal | Addition | Shrinking | Edition | Committing | Neutral

  /** Something was added, and something was edited in place, since the last commit. */
  datatype Cycle = Cycle(added: bool, edited: bool)

  function NextCycle(kind: Kind, c: Cycle): Cycle
  {
    match kind
    case Addition => c.(added := true)
    case Edition => c.(edited := true)
    case Committing => Cycle(false, false)
    case _ => c
  }

  /** In every cycle removals come before the first addition, and shrinking before items are edited in place. */
  predicate InOrder(kinds: seq<Kind>, c: Cycle)
  {
    kinds == [] ||
    (&& !(kinds[0] == Removal && c.added) && !(kinds[0] == Shrinking && c.edited)
     && InOrder(kinds[1..], NextCycle(kinds[0], c)))
  }

  function KindsOf<O>(ops: seq<O>, kind: O -> Kind): seq<Kind>
  {
    seq(|ops|, i requires 0 <= i < |ops| => kind(ops[i]))
  }

  lemma KindsNext<O>(ops: seq<O>, kind: O -> Kind, i: nat)
    requires i < |ops|
    ensures KindsOf(ops[i..], kind)[0] == kind(ops[i]) && KindsOf(ops[i..], kind)[1..] == KindsOf(ops[i + 1..], kind)
  {
  }
}
