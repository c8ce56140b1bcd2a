/** The container of backends, which tracks what changed since the last commit, also by shard. */
module Backends {
  import opened Endpoints
  import opened SlotAlignment
  import opened ChangeTracking

  type Items = map<string, Backend>

  /** The backends of a shard. */
  function OnShard(m: Items, s: nat): Items
  {
    map id | id in m && m[id].shard == s :: m[id]
  }

  /** The endpoints of a backend that are not empty slots. */
  ghost function Live(eps: seq<Endpoint>): set<Endpoint>
  {
    set ep | ep in eps && !IsEmpty(ep)
  }

  /** Same backend, but for paths, empty slots, and how often and in which order the endpoints are listed. */
  ghost predicate Matches(b1: Backend, b2: Backend)
    reads b1, b2
  {
    && b1.id == b2.id && b1.shard == b2.shard && b1.config == b2.config && b1.dynamic == b2.dynamic
    && Live(b1.endpoints) == Live(b2.endpoints)
  }

  method BackendsMatch(b1: Backend, b2: Backend) returns (r: bool)
    ensures r <==> Matches(b1, b2)
  {
    if b1.id != b2.id || b1.shard != b2.shard || b1.config != b2.config || b1.dynamic != b2.dynamic {
      return false;
    }
    if b1.pathState == b2.pathState && b1.endpoints == b2.endpoints {
      return true;
    }
    var seen: map<Endpoint, bool> := map[];
    for i := 0 to |b1.endpoints|
      invariant seen.Keys == Live(b1.endpoints[..i])
      invariant forall ep :: ep in seen ==> !seen[ep]
    {
      var ep := b1.endpoints[i];
      assert b1.endpoints[..i + 1] == b1.endpoints[..i] + [ep];
      if !IsEmpty(ep) {
        seen := seen[ep := false];
      }
    }
    assert b1.endpoints[..|b1.endpoints|] == b1.endpoints;
    for i := 0 to |b2.endpoints|
      invariant seen.Keys == Live(b1.endpoints)
      invariant forall ep :: ep in seen ==> (seen[ep] <==> ep in Live(b2.endpoints[..i]))
      invariant Live(b2.endpoints[..i]) <= Live(b1.endpoints)
    {
      var ep := b2.endpoints[i];
      assert b2.endpoints[..i + 1] == b2.endpoints[..i] + [ep];
      if !IsEmpty(ep) {
        if ep !in seen {
          assert ep in Live(b2.endpoints);
          return false;
        }
        seen := seen[ep := true];
      }
    }
    assert b2.endpoints[..|b2.endpoints|] == b2.endpoints;
    var todo := seen.Keys;
    while todo != {}
      invariant todo <= seen.Keys
      invariant forall ep :: ep in seen.Keys - todo ==> seen[ep]
    {
      var ep :| ep in todo;
      if !seen[ep] {
        return false;
      }
      todo := todo - {ep};
    }
    return true;
  }

  /** A new backend that may be replaced by the deleted one of the same name. */
  ghost predicate Swappable(add: Backend, del: Backend)
    reads add, del
  {
    |add.endpoints| <= |del.endpoints| && Matches(add, del)
  }

  /** Every shard has the backends of its number and no others. */
  ghost predicate Partitioned(items: Items, shards: seq<Items>)
  {
    forall s :: 0 <= s < |shards| ==> shards[s] == OnShard(items, s)
  }

  /** A shard not listed has what it had at the last commit. */
  ghost predicate Flagged(committed: Items, shards: seq<Items>, changed: set<nat>)
  {
    forall s :: 0 <= s < |shards| && s !in changed ==> shards[s] == OnShard(committed, s)
  }

  /** The numbers of the shards of these backends. */
  ghost function ShardsOf(m: Items): set<nat>
  {
    set id | id in m :: m[id].shard
  }

  /** If each change has its shard listed, a shard not listed has what it had. */
  lemma TrackedIsFlagged(committed: Items, del: Items, add: Items, items: Items, shards: seq<Items>, changed: set<nat>)
    requires Balanced(committed, del, add, items) && Partitioned(items, shards)
    requires |shards| > 0 ==> ShardsOf(add) + ShardsOf(del) <= changed
    ensures Flagged(committed, shards, changed)
  {
    forall s | 0 <= s < |shards| && s !in changed ensures shards[s] == OnShard(committed, s) {
      forall id ensures id in OnShard(items, s) <==> id in OnShard(committed, s)
                ensures id in OnShard(items, s) ==> OnShard(items, s)[id] == OnShard(committed, s)[id]
      {
        AddedAreItems(committed, del, add, items, id);
        assert id in add ==> add[id].shard in ShardsOf(add);
        assert id in del ==> del[id].shard in ShardsOf(del);
      }
      assert OnShard(items, s) == OnShard(committed, s);
    }
  }

  lemma PartitionSet(items: Items, shards: seq<Items>, id: string, b: Backend)
    requires Partitioned(items, shards) && b.shard < |shards|
    requires id in items ==> items[id].shard == b.shard
    ensures Partitioned(items[id := b], shards[b.shard := shards[b.shard][id := b]])
  {
    var shards' := shards[b.shard := shards[b.shard][id := b]];
    forall s | 0 <= s < |shards'| ensures shards'[s] == OnShard(items[id := b], s) {
      assert shards[s] == OnShard(items, s);
    }
  }

  lemma PartitionRemove(items: Items, shards: seq<Items>, id: string)
    requires Partitioned(items, shards) && id in items && items[id].shard < |shards|
    ensures Partitioned(items - {id}, shards[items[id].shard := shards[items[id].shard] - {id}])
  {
    var shards' := shards[items[id].shard := shards[items[id].shard] - {id}];
    forall s | 0 <= s < |shards'| ensures shards'[s] == OnShard(items - {id}, s) {
      assert shards[s] == OnShard(items, s);
    }
  }

  // ---------------------------------------------------------------- the state and its steps

  /** The accounting of the items, the shards and the numbers of those with changes. */
  datatype State = State(book: Book<Backend>, shards: seq<Items>, changed: set<nat>)

  /** The shard of a backend, from the hash of its name. */
  function ShardOf(hash: string -> nat, count: nat, id: string): (s: nat)
    ensures count > 0 ==> s < count
  {
    if count > 0 then hash(id) % count else 0
  }

  predicate Placed(hash: string -> nat, count: nat, m: Items)
  {
    forall id :: id in m ==> m[id].id == id && m[id].shard == ShardOf(hash, count, id)
  }

  /** The shards partition the items. */
  ghost predicate Valid(hash: string -> nat, s: State)
  {
    && Placed(hash, |s.shards|, s.book.items)
    && Placed(hash, |s.shards|, s.book.add)
    && Placed(hash, |s.shards|, s.book.del)
    && Placed(hash, |s.shards|, s.book.committed)
    && Partitioned(s.book.items, s.shards)
  }

  /** The number of every shard with a change is listed. */
  ghost predicate Listed(s: State)
  {
    |s.shards| > 0 ==> ShardsOf(s.book.add) + ShardsOf(s.book.del) <= s.changed
  }

  /** What is tracked tells what changed since the last commit, item by item and shard by shard. */
  ghost predicate Tracked(s: State)
  {
    InBalance(s.book) && Listed(s) && Flagged(s.book.committed, s.shards, s.changed)
  }

  lemma TrackedIf(hash: string -> nat, s: State)
    requires Valid(hash, s) && InBalance(s.book) && Listed(s)
    ensures Tracked(s)
  {
    TrackedIsFlagged(s.book.committed, s.book.del, s.book.add, s.book.items, s.shards, s.changed);
  }

  /** What `f` makes of the shard `n`. */
  function OnlyShard(shards: seq<Items>, n: nat, f: Items -> Items): seq<Items>
  {
    if n < |shards| then shards[n := f(shards[n])] else shards
  }

  function Acquired(s: State, id: string, b: Backend): State
  {
    State(s.book.(items := s.book.items[id := b], add := s.book.add[id := b]),
          OnlyShard(s.shards, b.shard, (m: Items) => m[id := b]),
          s.changed + {b.shard})
  }

  lemma AcquiredValid(hash: string -> nat, s: State, id: string, b: Backend)
    requires Valid(hash, s) && id !in s.book.items && b.id == id && b.shard == ShardOf(hash, |s.shards|, id)
    ensures Valid(hash, Acquired(s, id, b))
    ensures Tracked(s) ==> Tracked(Acquired(s, id, b))
  {
    var s' := Acquired(s, id, b);
    if |s.shards| > 0 {
      PartitionSet(s.book.items, s.shards, id, b);
    }
    assert Partitioned(s'.book.items, s'.shards);
    if Tracked(s) {
      AdditionBalanced(s.book.committed, s.book.del, s.book.add, s.book.items, id, b);
      ShardsOfSet(s.book.add, id, b);
      TrackedIf(hash, s');
    }
  }

  lemma ShardsOfSet(m: Items, id: string, b: Backend)
    ensures ShardsOf(m[id := b]) <= ShardsOf(m) + {b.shard}
  {
  }

  lemma ShardsOfNext(m: Items, id: string, b: Backend)
    requires id !in m
    ensures ShardsOf(m[id := b]) == ShardsOf(m) + {b.shard}
  {
    forall x | x in ShardsOf(m) + {b.shard} ensures x in ShardsOf(m[id := b]) {
      if x in ShardsOf(m) {
        var k :| k in m && m[k].shard == x;
        assert m[id := b][k].shard == x;
      } else {
        assert m[id := b][id].shard == x;
      }
    }
  }

  function RemovedOne(s: State, id: string): State
  {
    if id !in s.book.items then s else
    var item := s.book.items[id];
    State(Remove(s.book, id), OnlyShard(s.shards, item.shard, (m: Items) => m - {id}), s.changed + {item.shard})
  }

  lemma RemovedOneValid(hash: string -> nat, s: State, id: string)
    requires Valid(hash, s)
    ensures Valid(hash, RemovedOne(s, id))
    ensures Listed(s) ==> Listed(RemovedOne(s, id))
  {
    if id in s.book.items {
      var s' := RemovedOne(s, id);
      if |s.shards| > 0 {
        PartitionRemove(s.book.items, s.shards, id);
      }
      assert Partitioned(s'.book.items, s'.shards);
      ShardsOfSet(s.book.del, id, s.book.items[id]);
    }
  }

  /** Removals are tracked correctly exactly when none of the items was added since the last commit. */
  lemma RemovedTracked(hash: string -> nat, s: State, s': State, ids: seq<string>)
    requires Tracked(s) && Valid(hash, s') && Listed(s') && s'.book == RemoveSeq(s.book, ids)
    ensures Tracked(s') <==> forall id :: id in ids ==> id !in s.book.add
  {
    hide Valid, Listed, Flagged;
    RemoveSeqBalance(s.book, ids);
    if InBalance(s'.book) {
      TrackedIf(hash, s');
    }
  }

  function SwappedOne(s: State, id: string): State
    requires id in s.book.del
  {
    var del := s.book.del[id];
    State(Swap(s.book, id), OnlyShard(s.shards, del.shard, (m: Items) => m[del.id := del]), s.changed)
  }

  lemma SwappedOneValid(hash: string -> nat, s: State, id: string)
    requires Valid(hash, s) && id in s.book.del && id in s.book.add
    ensures Valid(hash, SwappedOne(s, id))
  {
    var s' := SwappedOne(s, id);
    if |s.shards| > 0 {
      PartitionSet(s.book.items, s.shards, id, s.book.del[id]);
    }
    assert Partitioned(s'.book.items, s'.shards);
  }

  /** The state after swaps, with the shards with changes recalculated if there were any. */
  lemma ShrunkTracked(hash: string -> nat, s: State, s': State, order: seq<string>, names: set<string>)
    requires Tracked(s) && Valid(hash, s') && s'.book == SwapAll(s.book, order)
    requires forall id :: id in order <==> id in names
    requires forall id :: id in names ==> id in s.book.del && id in s.book.add
    requires if order == [] then s' == s else s'.changed == ShardsOf(s'.book.add) + ShardsOf(s'.book.del)
    ensures Tracked(s')
  {
    hide Valid, Flagged, ShardsOf;
    SwapAllOf(s.book, order, names);
    if order != [] {
      TrackedIf(hash, s');
    }
  }

  lemma CommittedTracked(hash: string -> nat, s: State)
    requires Valid(hash, s)
    ensures var s' := State(Book(s.book.items, map[], map[], s.book.items), s.shards, {});
            Valid(hash, s') && Tracked(s')
  {
    CommitBalanced(s.book.items);
    TrackedIf(hash, State(Book(s.book.items, map[], map[], s.book.items), s.shards, {}));
  }

  function Cleared(s: State): State
  {
    State(Book(map[], map[], s.book.items, s.book.committed), seq(|s.shards|, i => map[]), {})
  }

  /**
   * Clearing the container loses the shards with changes: it is tracked correctly exactly when nothing changed
   * since the commit, and there are no shards or there was nothing in them.
   */
  lemma ClearedTracked(hash: string -> nat, s: State)
    requires Valid(hash, s)
    ensures Valid(hash, Cleared(s))
    ensures Flagged(s.book.committed, Cleared(s).shards, {}) <==> |s.shards| == 0 || s.book.committed == map[]
    ensures Tracked(Cleared(s)) <==> s.book.items == s.book.committed && (|s.shards| == 0 || s.book.committed == map[])
  {
    var s' := Cleared(s);
    assert Partitioned(s'.book.items, s'.shards);
    ClearBalanced(s.book.committed, s.book.items);
    forall id | id in s.book.committed ensures OnShard(s.book.committed, s.book.committed[id].shard) != map[] {
      assert id in OnShard(s.book.committed, s.book.committed[id].shard);
    }
    if Flagged(s.book.committed, s'.shards, {}) {
      assert forall n :: 0 <= n < |s'.shards| ==> OnShard(s.book.committed, n) == map[];
      assert |s.shards| > 0 ==> forall id :: id !in s.book.committed;
    }
  }

  /** Which shards are listed does not matter to the partition. */
  lemma ValidAnyway(hash: string -> nat, s: State, changed: set<nat>)
    requires Valid(hash, s)
    ensures Valid(hash, s.(changed := changed))
    ensures Tracked(s) && s.changed <= changed ==> Tracked(s.(changed := changed))
  {
  }

  // ---------------------------------------------------------------- contents

  datatype Content = Content(config: Config, dynamic: Dynamic, pathState: string, endpoints: seq<Endpoint>)

  ghost function ContentOf(b: Backend): Content
    reads b
  {
    Content(b.config, b.dynamic, b.pathState, b.endpoints)
  }

  ghost function ContentsOf(m: Items): map<string, Content>
    reads m.Values
  {
    map id | id in m :: ContentOf(m[id])
  }

  // ---------------------------------------------------------------- what the backends are, whatever is tracked

  /** The settings and the endpoints in use, without empty slots. */
  datatype BackView = BackView(config: Config, dynamic: Dynamic, live: set<Endpoint>)

  ghost function ViewOf(c: Content): BackView
  {
    BackView(c.config, c.dynamic, Live(c.endpoints))
  }

  ghost function Shown(m: Items): map<string, BackView>
    reads m.Values
  {
    map id | id in m :: ViewOf(ContentOf(m[id]))
  }

  /** What an operation does to the backends: shrinking, aligning and committing are not seen. */
  ghost function After(op: Op, view: map<string, BackView>): map<string, BackView>
  {
    match op
    case RemoveOp(ids) => map id | id in view && id !in ids :: view[id]
    case AcquireOp(id, config, dynamic, endpoints) =>
      if id in view then view else view[id := BackView(config, dynamic, Live(endpoints))]
    case _ => view
  }

  ghost function AfterAll(ops: seq<Op>, view: map<string, BackView>): map<string, BackView>
  {
    if ops == [] then view else After(ops[|ops| - 1], AfterAll(ops[..|ops| - 1], view))
  }

  lemma AfterNone(view: map<string, BackView>)
    ensures AfterAll([], view) == view
  {
  }

  lemma AfterNext(ops: seq<Op>, i: nat, view: map<string, BackView>)
    requires i < |ops|
    ensures AfterAll(ops[..i + 1], view) == After(ops[i], AfterAll(ops[..i], view))
  {
    assert ops[..i + 1][..i] == ops[..i];
  }

  lemma ShownRemoved(b: Book<Backend>, b': Book<Backend>, ids: seq<string>)
    requires Removed(b, b', Members(ids))
    ensures Shown(b'.items) == After(RemoveOp(ids), Shown(b.items))
  {
    hide ViewOf, ContentOf;
    forall id ensures id in b'.items <==> id in b.items && id !in ids {
      MembersMeans(ids, id);
    }
  }

  lemma SwappableShown(add: Backend, del: Backend)
    requires Swappable(add, del)
    ensures ViewOf(ContentOf(add)) == ViewOf(ContentOf(del))
  {
  }

  /** Empty slots are not among the endpoints in use. */
  lemma PaddedLive(config: Config, eps: seq<Endpoint>, eps': seq<Endpoint>)
    requires PaddedTo(config, eps, eps', |eps'|)
    ensures Live(eps') == Live(eps)
  {
    assert forall k :: |eps| <= k < |eps'| ==> IsEmpty(eps'[k]);
    forall ep | ep in eps' && !IsEmpty(ep) ensures ep in eps {
      var i :| 0 <= i < |eps'| && eps'[i] == ep;
    }
    forall ep | ep in eps ensures ep in eps' {
      var i :| 0 <= i < |eps| && eps[i] == ep;
      assert eps'[i] == ep;
    }
  }

  lemma PaddedView(c: Content, eps: seq<Endpoint>)
    requires PaddedTo(c.config, c.endpoints, eps, |eps|)
    ensures ViewOf(c.(endpoints := eps)) == ViewOf(c)
  {
    PaddedLive(c.config, c.endpoints, eps);
  }

  lemma ShownAcquired(m: Items, id: string, b: Backend, op: Op)
    requires id !in m && op == AcquireOp(id, b.config, b.dynamic, b.endpoints)
    ensures Shown(m[id := b]) == After(op, Shown(m))
  {
    hide Live;
    var view := Shown(m)[id := ViewOf(ContentOf(b))];
    assert Shown(m[id := b]) == view;
  }

  lemma ShownKeys(m: Items)
    ensures Shown(m).Keys == m.Keys
  {
  }

  lemma AcquiredItems(s: State, id: string, b: Backend)
    ensures var s' := Acquired(s, id, b);
            && s'.book == s.book.(items := s.book.items[id := b], add := s.book.add[id := b])
            && s'.changed == s.changed + {b.shard}
  {
  }

  lemma Unseen(op: Op, view: map<string, BackView>)
    requires !op.RemoveOp? && (op.AcquireOp? ==> op.id in view)
    ensures After(op, view) == view
  {
  }

  /** The backend has the same settings and live endpoints; it is as it was if it is pending or its shard is not listed. */
  ghost predicate AlignedFrom(b: Backend, was: Content, pending: bool, listed: bool)
    reads b
  {
    && ViewOf(ContentOf(b)) == ViewOf(was)
    && (pending || !listed ==> ContentOf(b) == was)
    && (!pending && b.dynamic.dynUpdate ==> Aligned(b.dynamic, |b.endpoints|, CountEmpty(b.endpoints)))
  }

  lemma PendingFrom(b: Backend, was: Content, listed: bool)
    requires AlignedFrom(b, was, true, listed)
    ensures ContentOf(b) == was
  {
  }

  lemma NowAligned(b: Backend, was: Content, listed: bool)
    requires ViewOf(ContentOf(b)) == ViewOf(was) && (!listed ==> ContentOf(b) == was)
    requires b.dynamic.dynUpdate ==> Aligned(b.dynamic, |b.endpoints|, CountEmpty(b.endpoints))
    ensures AlignedFrom(b, was, false, listed)
  {
  }

  lemma AlignedListed(b: Backend, was: Content, pending: bool, before: bool, listed: bool)
    requires AlignedFrom(b, was, pending, before) && (before ==> listed)
    ensures AlignedFrom(b, was, pending, listed)
  {
  }

  /** The backends of these shards, or all if nothing was edited, have the content of the snapshot. */
  ghost predicate Preserved(m: Items, snapshot: map<string, Content>, edited: bool, changed: set<nat>)
    reads m.Values
  {
    m.Keys == snapshot.Keys
    && forall id :: id in m && !(edited && m[id].shard in changed) ==> ContentOf(m[id]) == snapshot[id]
  }

  /** A shard not listed has the backends that it had, with the content that they had. */
  ghost predicate SameShard(now: Items, committed: Items, snapshot: map<string, Content>, s: nat)
    reads now.Values
  {
    now == OnShard(committed, s) && forall id :: id in now ==> id in snapshot && ContentOf(now[id]) == snapshot[id]
  }

  lemma UnlistedSame(s: State, snapshot: map<string, Content>, edited: bool, n: nat)
    requires Tracked(s) && Preserved(s.book.committed, snapshot, edited, s.changed)
    requires n < |s.shards| && n !in s.changed
    ensures SameShard(s.shards[n], s.book.committed, snapshot, n)
  {
  }

  // ---------------------------------------------------------------- the container

  class Container {
    var items: Items
    var itemsAdd: Items
    var itemsDel: Items
    var shards: seq<Items>
    var changedShards: set<nat>
    const hash: string -> nat

    /** The items at the last commit, and what was in them. */
    ghost var committed: Items
    ghost var snapshot: map<string, Content>
    /** A live backend was changed in place since the last commit. */
    ghost var edited: bool

    constructor (shardCount: nat, hash: string -> nat)
      ensures this.hash == hash
      ensures S() == State(Book(map[], map[], map[], map[]), seq(shardCount, i => map[]), {})
      ensures snapshot == map[] && !edited
      ensures Valid(hash, S()) && Tracked(S())
    {
      this.hash := hash;
      items, itemsAdd, itemsDel, changedShards, committed, snapshot, edited := map[], map[], map[], {}, map[], map[], false;
      shards := seq(shardCount, i => map[]);
      new;
      assert Partitioned(items, shards);
      CommittedTracked(hash, S());
    }

    ghost function S(): State
      reads this
    {
      State(Book(items, itemsAdd, itemsDel, committed), shards, changedShards)
    }

    /** What is tracked is right, for the contents too. */
    ghost predicate Right()
      reads this, committed.Values
    {
      Valid(hash, S()) && Tracked(S()) && Preserved(committed, snapshot, edited, changedShards)
    }

    method BackendChanged(b: Backend)
      modifies this`changedShards
      ensures changedShards == old(changedShards) + {b.shard}
    {
      changedShards := changedShards + {b.shard};
    }

    method AcquireBackend(id: string) returns (b: Backend, created: bool)
      requires Valid(hash, S())
      modifies this`items, this`itemsAdd, this`shards, this`changedShards
      ensures Valid(hash, S()) && (old(Tracked(S())) ==> Tracked(S()))
      ensures created <==> id !in old(items)
      ensures created ==> fresh(b) && b.id == id && b.shard == ShardOf(hash, |old(shards)|, id)
      ensures created ==> b.shard == (if |old(shards)| > 0 then hash(id) % |old(shards)| else 0) && b.endpoints == []
      ensures created ==> S() == Acquired(old(S()), id, b)
      ensures !created ==> S() == old(S()) && id in items && b == items[id]
    {
      hide Valid, Tracked;
      if id in items {
        return items[id], false;
      }
      created := true;
      b := new Backend(id, ShardOf(hash, |shards|, id), Config(Sequence, 1, false, "", ""));
      AcquiredValid(hash, S(), id, b);
      items := items[id := b];
      itemsAdd := itemsAdd[id := b];
      if |shards| > 0 {
        shards := shards[b.shard := shards[b.shard][id := b]];
      }
      BackendChanged(b);
    }

    method RemoveAll(ids: seq<string>)
      requires Valid(hash, S())
      modifies this`items, this`itemsDel, this`shards, this`changedShards
      ensures Valid(hash, S()) && |shards| == |old(shards)| && old(changedShards) <= changedShards
      ensures Removed(old(S()).book, S().book, Members(ids))
      ensures old(Tracked(S())) ==> (Tracked(S()) <==> forall id :: id in ids ==> id !in itemsAdd)
    {
      hide Valid, Listed, Flagged, Remove, InBalance, Removed;
      for i := 0 to |ids|
        invariant Valid(hash, S()) && S().book == RemoveSeq(old(S()).book, ids[..i])
        invariant old(Listed(S())) ==> Listed(S())
        invariant |shards| == |old(shards)| && old(changedShards) <= changedShards
      {
        assert ids[..i + 1][..i] == ids[..i];
        RemovedOneValid(hash, S(), ids[i]);
        RemoveOne(ids[i]);
      }
      assert ids[..|ids|] == ids;
      RemoveSeqRemoves(old(S()).book, ids);
      if old(Tracked(S())) {
        RemovedTracked(hash, old(S()), S(), ids);
      }
    }

    method RemoveOne(id: string)
      requires Valid(hash, S())
      modifies this`items, this`itemsDel, this`shards, this`changedShards
      ensures S() == RemovedOne(old(S()), id)
      ensures S().book == Remove(old(S()).book, id) && |shards| == |old(shards)| && old(changedShards) <= changedShards
    {
      if id in items {
        var item := items[id];
        if |shards| > 0 {
          shards := shards[item.shard := shards[item.shard] - {id}];
        }
        BackendChanged(item);
        itemsDel := itemsDel[id := item];
        items := items - {id};
      }
    }

    method SwapIfMatches(id: string) returns (swapped: bool)
      requires Valid(hash, S()) && id in itemsDel
      modifies this`items, this`itemsAdd, this`itemsDel, this`shards
      ensures swapped <==> id in old(itemsAdd) && Swappable(old(itemsAdd)[id], old(itemsDel)[id])
      ensures S() == if swapped then SwappedOne(old(S()), id) else old(S())
      ensures S().book == if swapped then Swap(old(S()).book, id) else old(S()).book
      ensures Valid(hash, S())
    {
      swapped := false;
      if id in itemsAdd {
        var add, del := itemsAdd[id], itemsDel[id];
        if |add.endpoints| <= |del.endpoints| {
          swapped := BackendsMatch(add, del);
        }
        if swapped {
          SwappedOneValid(hash, S(), id);
          if |shards| > 0 {
            shards := shards[del.shard := shards[del.shard][del.id := del]];
          }
          items := items[id := del];
          itemsAdd := itemsAdd - {id};
          itemsDel := itemsDel - {id};
        }
      }
    }

    /** The names of the new backends that may be replaced by the deleted ones. */
    ghost function SwapNames(add: Items, del: Items): set<string>
      reads add.Values, del.Values
    {
      set id | id in add && id in del && Swappable(add[id], del[id])
    }

    /** Swaps every new backend that matches the deleted one of its name. */
    method SwapMatching() returns (changed: bool, ghost order: seq<string>)
      requires Valid(hash, S())
      modifies this`items, this`itemsAdd, this`itemsDel, this`shards
      ensures Valid(hash, S()) && S().book == SwapAll(old(S()).book, order)
      ensures forall id :: id in order <==> id in SwapNames(old(itemsAdd), old(itemsDel))
      ensures changed <==> order != []
      ensures !changed ==> S() == old(S())
    {
      hide Valid, Swap, Swappable, SwappedOne;
      changed, order := false, [];
      var todo := itemsDel.Keys;
      ghost var b0 := S().book;
      while todo != {}
        invariant todo <= b0.del.Keys
        invariant Valid(hash, S()) && S().book == SwapAll(b0, order)
        invariant forall id :: id in order <==> id in SwapNames(b0.add, b0.del) && id !in todo
        invariant changed <==> order != []
        invariant !changed ==> S() == old(S())
      {
        var id :| id in todo;
        SwapAllElsewhere(b0, order, id);
        var swapped := SwapIfMatches(id);
        todo := todo - {id};
        if swapped {
          changed := true;
          order := order + [id];
          assert order[..|order| - 1] + [id] == order;
        }
      }
    }

    /** The shards of the changes tracked. */
    method RecalcShards()
      modifies this`changedShards
      ensures changedShards == ShardsOf(itemsAdd) + ShardsOf(itemsDel)
    {
      changedShards := {};
      FlagAll(itemsAdd);
      FlagAll(itemsDel);
    }

    method FlagAll(m: Items)
      modifies this`changedShards
      ensures changedShards == old(changedShards) + ShardsOf(m)
    {
      var todo := m.Keys;
      while todo != {}
        invariant todo <= m.Keys
        invariant changedShards == old(changedShards) + ShardsOf(m - todo)
      {
        ghost var before := todo;
        var id :| id in todo;
        todo := todo - {id};
        ghost var rest := m - (todo + {id});
        assert todo + {id} == before;
        assert m - todo == rest[id := m[id]];
        ShardsOfNext(rest, id, m[id]);
        BackendChanged(m[id]);
      }
      assert m - {} == m;
    }

    /**
     * New backends that match a deleted one, and need no more slots, are dropped in favour of it. The shards with
     * changes are then those of the changes left.
     */
    method Shrink()
      requires Valid(hash, S())
      modifies this`items, this`itemsAdd, this`itemsDel, this`shards, this`changedShards
      ensures Valid(hash, S())
      ensures Swapped(old(S()).book, S().book, SwapNames(old(itemsAdd), old(itemsDel)))
      ensures changedShards == if SwapNames(old(itemsAdd), old(itemsDel)) == {} then old(changedShards)
                               else ShardsOf(itemsAdd) + ShardsOf(itemsDel)
      ensures old(Tracked(S())) ==> Tracked(S())
    {
      hide Valid, Tracked, ShardsOf, Swappable, SwapAll, Swapped;
      var changed, order := SwapMatching();
      ghost var names := SwapNames(old(itemsAdd), old(itemsDel));
      SwapAllOf(old(S()).book, order, names);
      assert order == [] <==> names == {} by {
        assert order != [] ==> order[0] in order;
      }
      ghost var s := S();
      if changed {
        RecalcShards();
      }
      ValidAnyway(hash, s, changedShards);
      if old(Tracked(S())) {
        ShrunkTracked(hash, old(S()), S(), order, names);
      }
    }

    method Commit()
      requires Valid(hash, S())
      modifies this
      ensures S() == State(Book(old(items), map[], map[], old(items)), old(shards), {})
      ensures Right() && !edited
    {
      CommittedTracked(hash, S());
      itemsAdd, itemsDel, changedShards := map[], map[], {};
      committed := items;
      snapshot, edited := ContentsOf(items), false;
    }

    /** Removes everything. No shard is flagged: the loop that would do so looks at the new shards, which are empty. */
    method Clear()
      requires Valid(hash, S())
      modifies this
      ensures S() == Cleared(old(S()))
      ensures Valid(hash, S())
      ensures Tracked(S()) <==> old(items) == committed && (|shards| == 0 || committed == map[])
    {
      ClearedTracked(hash, S());
      var newShards: seq<Items> := seq(|shards|, i => map[]);
      items, itemsAdd, itemsDel, shards, changedShards := map[], map[], items, newShards, {};
    }

    /** The objects that the container may change are in `repr`. */
    ghost predicate Owned(repr: set<Backend>)
      reads this
    {
      items.Values <= repr && itemsDel.Values <= repr
    }

    ghost predicate AllAligned()
      reads this, items.Values
    {
      forall id :: id in items && items[id].dynamic.dynUpdate ==>
                     Aligned(items[id].dynamic, |items[id].endpoints|, CountEmpty(items[id].endpoints))
    }

    /** A backend of a shard not listed is as it was; those of `todo` are as they were, the others aligned. */
    ghost predicate AlignedBut(todo: set<string>, was: map<string, Content>)
      reads this, items.Values
    {
      && was.Keys == items.Keys
      && (forall id :: id in items ==> AlignedFrom(items[id], was[id], id in todo, items[id].shard in changedShards))
    }

    method AlignBackend(b: Backend) returns (added: bool)
      modifies b`endpoints
      ensures !added ==> b.endpoints == old(b.endpoints)
      ensures ViewOf(ContentOf(b)) == old(ViewOf(ContentOf(b)))
      ensures b.dynamic.dynUpdate ==> Aligned(b.dynamic, |b.endpoints|, CountEmpty(b.endpoints))
    {
      hide Aligned, CountEmpty, LeastAligned, LeastCovering, ViewOf;
      ghost var eps, c := b.endpoints, ContentOf(b);
      added := AlignSlots(b);
      PaddedView(c, b.endpoints);
      assert ContentOf(b) == c.(endpoints := b.endpoints);
      assert !added ==> b.endpoints == eps;
    }

    method AlignOne(b: Backend, ghost id: string, ghost todo: set<string>, ghost was: map<string, Content>)
      requires Valid(hash, S()) && id in todo && id in items && b == items[id] && AlignedBut(todo, was)
      modifies this`changedShards, b`endpoints
      ensures old(changedShards) <= changedShards
      ensures AlignedBut(todo - {id}, was)
    {
      hide Aligned, CountEmpty, Partitioned, ViewOf, AlignedFrom;
      forall k | k in items && k != id ensures items[k] != b {
        assert items[k].id == k;
      }
      PendingFrom(b, was[id], b.shard in changedShards);
      var added := AlignBackend(b);
      if added {
        BackendChanged(b);
      }
      forall k | k in items ensures AlignedFrom(items[k], was[k], k in todo - {id}, items[k].shard in changedShards) {
        if k == id {
          NowAligned(b, was[id], b.shard in changedShards);
        } else {
          AlignedListed(items[k], was[k], k in todo, items[k].shard in old(changedShards), items[k].shard in changedShards);
        }
      }
    }

    /** Slots of all the backends are aligned, and the shards of those that changed are flagged. */
    method AlignAll()
      requires Valid(hash, S())
      modifies this`changedShards, this`edited, items.Values`endpoints
      ensures S() == old(S()).(changed := changedShards) && old(changedShards) <= changedShards && edited
      ensures Valid(hash, S()) && AlignedBut({}, old(ContentsOf(items)))
    {
      hide Valid, Aligned, CountEmpty, ViewOf;
      var todo := items.Keys;
      ghost var was := ContentsOf(items);
      edited := true;
      while todo != {}
        invariant todo <= items.Keys && old(changedShards) <= changedShards && edited && Valid(hash, S())
        invariant AlignedBut(todo, was)
      {
        var id :| id in todo;
        ghost var s := S();
        AlignOne(items[id], id, todo, was);
        ValidAnyway(hash, s, changedShards);
        todo := todo - {id};
      }
    }

    method AlignRight()
      requires Right()
      modifies this`changedShards, this`edited, items.Values`endpoints
      ensures Right() && edited && S() == old(S()).(changed := changedShards)
      ensures Shown(items) == old(Shown(items)) && AllAligned()
    {
      hide Valid, Tracked, Aligned, CountEmpty, ViewOf;
      ghost var s, was := S(), ContentsOf(items);
      AlignAll();
      ValidAnyway(hash, s, changedShards);
      forall id | id in committed && committed[id].shard !in changedShards
        ensures ContentOf(committed[id]) == old(ContentOf(committed[id]))
      {
        if committed[id] in items.Values {
          var k :| k in items && items[k] == committed[id];
          assert ContentOf(items[k]) == was[k];
        }
      }
    }

    method AcquireRight(id: string, config: Config, dynamic: Dynamic, endpoints: seq<Endpoint>, ghost repr: set<Backend>)
        returns (ghost repr': set<Backend>)
      requires Right() && Owned(repr)
      modifies this`items, this`itemsAdd, this`shards, this`changedShards
      ensures Right() && Owned(repr') && repr <= repr' && fresh(repr' - repr)
      ensures Shown(items) == After(AcquireOp(id, config, dynamic, endpoints), old(Shown(items)))
    {
      hide Valid, Tracked, Shown, After, ViewOf, Acquired;
      ghost var was, op := items, AcquireOp(id, config, dynamic, endpoints);
      repr' := repr;
      var b, created := AcquireBackend(id);
      if created {
        b.config, b.dynamic, b.endpoints := config, dynamic, endpoints;
        repr' := repr + {b};
        AcquiredItems(old(S()), id, b);
        ShownAcquired(was, id, b, op);
      } else {
        ShownKeys(items);
        Unseen(op, Shown(items));
      }
    }

    method RemoveRight(ids: seq<string>, ghost repr: set<Backend>)
      requires Right() && Owned(repr) && itemsAdd == map[]
      modifies this`items, this`itemsDel, this`shards, this`changedShards
      ensures Right() && Owned(repr) && Shown(items) == After(RemoveOp(ids), old(Shown(items)))
    {
      hide Valid, Tracked, Members, Shown, After;
      RemoveAll(ids);
      ShownRemoved(old(S()).book, S().book, ids);
    }

    lemma ShownSwapped(b: Book<Backend>, b': Book<Backend>)
      requires InBalance(b) && Swapped(b, b', SwapNames(b.add, b.del))
      ensures Shown(b'.items) == Shown(b.items)
    {
      hide InBalance, Swappable, ViewOf, ContentOf;
      forall id | id in b'.items ensures id in b.items && ViewOf(ContentOf(b'.items[id])) == ViewOf(ContentOf(b.items[id])) {
        if id in SwapNames(b.add, b.del) {
          AddedIsItem(b, id);
          SwappableShown(b.add[id], b.del[id]);
        }
      }
    }

    lemma RightInBalance()
      requires Right()
      ensures InBalance(S().book)
    {
    }

    method ShrinkRight(ghost repr: set<Backend>)
      requires Right() && Owned(repr) && !edited
      modifies this`items, this`itemsAdd, this`itemsDel, this`shards, this`changedShards
      ensures Right() && Owned(repr) && (old(itemsAdd) == map[] ==> itemsAdd == map[]) && Shown(items) == old(Shown(items))
    {
      hide Valid, Tracked, Swappable, ShardsOf, Shown, SwapNames, InBalance;
      RightInBalance();
      Shrink();
      ShownSwapped(old(S()).book, S().book);
    }

    /** The steps of a cycle. */
    method Apply(op: Op, ghost repr: set<Backend>) returns (ghost repr': set<Backend>)
      requires Owned(repr) && Right()
      requires !(op.RemoveOp? && itemsAdd != map[]) && !(op.ShrinkOp? && edited)
      modifies this, repr
      ensures Owned(repr') && repr <= repr' && fresh(repr' - repr) && Right()
      ensures Shown(items) == After(op, old(Shown(items))) && (op.AlignOp? ==> AllAligned())
      ensures itemsAdd != map[] ==> NextCycle(KindOf(op), Cycle(old(itemsAdd) != map[], old(edited))).added
      ensures edited ==> NextCycle(KindOf(op), Cycle(old(itemsAdd) != map[], old(edited))).edited
    {
      hide Right, Valid, Tracked, Shown, Live, AllAligned;
      repr' := repr;
      match op
      case RemoveOp(ids) => RemoveRight(ids, repr);
      case AcquireOp(id, config, dynamic, endpoints) => repr' := AcquireRight(id, config, dynamic, endpoints, repr);
      case ShrinkOp => ShrinkRight(repr);
      case AlignOp => AlignRight();
      case CommitOp => CommitRight();
    }

    method CommitRight()
      requires Right()
      modifies this
      ensures Right() && !edited && itemsAdd == map[] && itemsDel == map[] && items == old(items)
    {
      hide Valid, Tracked, Preserved;
      Commit();
    }

    /**
     * Over any run of cycles that remove before they acquire, and shrink before slots are aligned, the shards partition
     * the items, the items are the committed ones without those deleted and with those added, and a shard not listed
     * has the backends that it had at the last commit, with the content that they had.
     */
    method Run(ops: seq<Op>, ghost repr: set<Backend>)
      requires Owned(repr) && Right()
      requires InOrder(KindsOf(ops, KindOf), Cycle(itemsAdd != map[], edited))
      modifies this, repr
      ensures Valid(hash, S()) && Tracked(S())
      ensures forall s :: 0 <= s < |shards| && s !in changedShards ==> SameShard(shards[s], committed, snapshot, s)
      ensures Shown(items) == AfterAll(ops, old(Shown(items)))
    {
      hide Right, Valid, Tracked, SameShard, Shown, After, AfterAll;
      AfterNone(Shown(items));
      ghost var c, backs := Cycle(itemsAdd != map[], edited), repr;
      assert ops[0..] == ops;
      for i := 0 to |ops|
        invariant Owned(backs) && repr <= backs && fresh(backs - repr) && Right()
        invariant InOrder(KindsOf(ops[i..], KindOf), c) && (itemsAdd != map[] ==> c.added) && (edited ==> c.edited)
        invariant Shown(items) == AfterAll(ops[..i], old(Shown(items)))
      {
        KindsNext(ops, KindOf, i);
        AfterNext(ops, i, old(Shown(items)));
        backs := Apply(ops[i], backs);
        c := NextCycle(KindOf(ops[i]), c);
      }
      assert ops[..|ops|] == ops;
      RightUnlisted();
    }

    lemma RightUnlisted()
      requires Right()
      ensures Valid(hash, S()) && Tracked(S())
      ensures forall s :: 0 <= s < |shards| && s !in changedShards ==> SameShard(shards[s], committed, snapshot, s)
    {
      forall s | 0 <= s < |shards| && s !in changedShards ensures SameShard(shards[s], committed, snapshot, s) {
        UnlistedSame(S(), snapshot, edited, s);
      }
    }
  }

  datatype Op =
    | RemoveOp(ids: seq<string>)
    | AcquireOp(id: string, config: Config, dynamic: Dynamic, endpoints: seq<Endpoint>)
    | ShrinkOp
    | AlignOp
    | CommitOp

  function KindOf(op: Op): Kind
  {
    match op
    case RemoveOp(_) => Removal
    case AcquireOp(_, _, _, _) => Addition
    case ShrinkOp => Shrinking
    case AlignOp => Edition
    case CommitOp => Committing
  }
}
