/** Stable server ids: a hash of the pod, and the next free id if that one is taken. */
module ProxyIds {
  import opened Ordering
  import opened Sets
  import opened Endpoints

  /** Ids are positive and have 31 bits. */
  const LIMIT := 0x8000_0000

  predicate Free(used: set<nat>, id: nat)
  {
    0 < id < LIMIT && id !in used
  }

  /** The k-th id tried, from a hash. */
  function Tried(hash: nat, k: nat): nat
  {
    (hash + k) % LIMIT
  }

  /** The id is the first free one among those tried. */
  ghost predicate FirstFree(used: set<nat>, hash: nat, id: nat)
  {
    exists k: nat :: id == Tried(hash, k) && Free(used, id) && forall j: nat :: j < k ==> !Free(used, Tried(hash, j))
  }

  lemma FirstFreeUnique(used: set<nat>, hash: nat, id: nat, id': nat)
    requires FirstFree(used, hash, id) && FirstFree(used, hash, id')
    ensures id == id'
  {
    var k: nat :| id == Tried(hash, k) && Free(used, id) && forall j: nat :: j < k ==> !Free(used, Tried(hash, j));
    var k': nat :| id' == Tried(hash, k') && Free(used, id') && forall j: nat :: j < k' ==> !Free(used, Tried(hash, j));
  }

  // ---------------------------------------------------------------- there is a free id

  ghost function UpTo(n: nat): set<nat>
  {
    if n == 0 then {} else UpTo(n - 1) + {n}
  }

  lemma {:induction false} UpToMeans(n: nat, x: nat)
    ensures x in UpTo(n) <==> 0 < x <= n
  {
    if n > 0 {
      UpToMeans(n - 1, x);
    }
  }

  lemma {:induction false} UpToCount(n: nat)
    ensures |UpTo(n)| == n
  {
    if n > 0 {
      UpToCount(n - 1);
      UpToMeans(n - 1, n);
    }
  }

  lemma Unused(used: set<nat>, n: nat) returns (id: nat)
    requires |used| < n
    ensures 0 < id <= n && id !in used
  {
    UpToCount(n);
    if UpTo(n) <= used {
      SubsetSize(UpTo(n), used);
    }
    id :| id in UpTo(n) && id !in used;
    UpToMeans(n, id);
  }

  lemma TriedNext(hash: nat, k: nat)
    ensures Tried(hash, k) < LIMIT && Tried(hash, k + 1) == (Tried(hash, k) + 1) % LIMIT
    ensures hash < LIMIT ==> Tried(hash, 0) == hash
  {
  }

  /** The probe that finds a given id. */
  lemma ProbeOf(hash: nat, id: nat) returns (k: nat)
    requires hash < LIMIT && id < LIMIT
    ensures Tried(hash, k) == id
  {
    k := if id >= hash then id - hash else id + LIMIT - hash;
  }

  /** Linear probing. It ends whenever an id is free. */
  method Probe(used: set<nat>, hash: nat) returns (id: nat)
    requires hash < LIMIT && |used| < LIMIT - 1
    ensures FirstFree(used, hash, id)
  {
    hide Tried;
    TriedNext(hash, 0);
    ghost var free := Unused(used, LIMIT - 1);
    ghost var last := ProbeOf(hash, free);
    ghost var k: nat := 0;
    id := hash;
    while !(id != 0 && id !in used)
      invariant id == Tried(hash, k) && k <= last
      invariant forall j: nat :: j < k ==> !Free(used, Tried(hash, j))
      decreases last - k
    {
      TriedNext(hash, k);
      id := (id + 1) % LIMIT;
      k := k + 1;
    }
    TriedNext(hash, k);
  }

  // ---------------------------------------------------------------- the ids of a backend

  ghost function Members(ids: seq<nat>): set<nat>
  {
    set x | x in ids
  }

  lemma {:induction false} MembersSize(ids: seq<nat>)
    ensures |Members(ids)| <= |ids|
  {
    if ids != [] {
      var n := |ids| - 1;
      MembersSize(ids[..n]);
      assert ids == ids[..n] + [ids[n]];
      assert Members(ids) == Members(ids[..n]) + {ids[n]};
    }
  }

  /** Each id is the first one, from the hash of its TargetRef, that none of those before took. */
  ghost predicate IdsFor(refs: seq<string>, hash: string -> nat, ids: seq<nat>)
  {
    && |ids| == |refs|
    && (forall k :: 0 <= k < |ids| ==> FirstFree(Members(ids[..k]), hash(refs[k]), ids[k]))
  }

  /** The ids depend only on the hashes and the order of TargetRefs. */
  lemma {:induction false} IdsUnique(refs: seq<string>, hash: string -> nat, ids: seq<nat>, ids': seq<nat>, k: nat)
    requires IdsFor(refs, hash, ids) && IdsFor(refs, hash, ids') && k <= |refs|
    ensures ids[..k] == ids'[..k]
  {
    hide FirstFree, Members;
    if k > 0 {
      IdsUnique(refs, hash, ids, ids', k - 1);
      assert FirstFree(Members(ids[..k - 1]), hash(refs[k - 1]), ids[k - 1]);
      assert FirstFree(Members(ids'[..k - 1]), hash(refs[k - 1]), ids'[k - 1]);
      FirstFreeUnique(Members(ids[..k - 1]), hash(refs[k - 1]), ids[k - 1], ids'[k - 1]);
      assert ids[..k] == ids[..k - 1] + [ids[k - 1]] && ids'[..k] == ids'[..k - 1] + [ids'[k - 1]];
    }
  }

  /** `from` lists the endpoints that have a TargetRef, in the order of these. */
  ghost predicate Listed(eps: seq<Endpoint>, from: seq<nat>)
  {
    && (forall m :: 0 <= m < |from| ==> from[m] < |eps| && eps[from[m]].targetRef != "")
    && (forall m, n :: 0 <= m < n < |from| ==> from[m] != from[n])
    && (forall m, n :: 0 <= m < n < |from| ==> LexLe(eps[from[m]].targetRef, eps[from[n]].targetRef))
  }

  ghost predicate AllListed(eps: seq<Endpoint>, from: seq<nat>)
  {
    Listed(eps, from) && forall i :: 0 <= i < |eps| && eps[i].targetRef != "" ==> i in from
  }

  ghost function RefsOf(eps: seq<Endpoint>, from: seq<nat>): (r: seq<string>)
    requires forall m :: 0 <= m < |from| ==> from[m] < |eps|
    ensures |r| == |from|
  {
    seq(|from|, m requires 0 <= m < |from| => eps[from[m]].targetRef)
  }

  /** The endpoints listed have these ids, and nothing else changed. */
  ghost predicate Given(was: seq<Endpoint>, now: seq<Endpoint>, from: seq<nat>, ids: seq<nat>)
  {
    && |was| == |now| && |from| == |ids|
    && (forall m :: 0 <= m < |from| ==> from[m] < |was| && now[from[m]] == was[from[m]].(puid := ids[m]))
    && (forall i :: 0 <= i < |was| && i !in from ==> now[i] == was[i])
  }

  predicate RefLe(eps: seq<Endpoint>, i: nat, j: nat)
  {
    i < |eps| && j < |eps| && LexLe(eps[i].targetRef, eps[j].targetRef)
  }

  /** The positions of the endpoints, ordered by TargetRef. */
  method SortByRef(eps: seq<Endpoint>) returns (order: seq<nat>)
    ensures forall k :: 0 <= k < |order| ==> order[k] < |eps|
    ensures forall i, j :: 0 <= i < j < |order| ==> order[i] != order[j]
    ensures forall i :: 0 <= i < |eps| ==> i in order
    ensures forall i, j :: 0 <= i < j < |order| ==> RefLe(eps, order[i], order[j])
    ensures |order| == |eps|
  {
    hide LexLe, Sort;
    var all: seq<nat> := seq(|eps|, i requires i >= 0 => i);
    var le := (i: nat, j: nat) => RefLe(eps, i, j);
    order := Sort(all, le);
    ghost var d := set i | i in all;
    RefLePreorder(eps, d, le);
    SortSortedOn(d, all, le);
    DistinctRearranged(all, order);
    forall k | 0 <= k < |order| ensures order[k] < |eps| {
      assert order[k] in multiset(all);
    }
    forall i | 0 <= i < |eps| ensures i in order {
      assert all[i] in multiset(order);
    }
  }

  lemma RefLePreorder(eps: seq<Endpoint>, d: set<nat>, le: (nat, nat) -> bool)
    requires forall i :: i in d ==> i < |eps|
    requires forall i, j :: le(i, j) == RefLe(eps, i, j)
    ensures PreorderOn(d, le)
  {
    forall i, j | i in d && j in d ensures le(i, j) || le(j, i) {
      LexTotal(eps[i].targetRef, eps[j].targetRef);
    }
    forall i, j, k | i in d && j in d && k in d && le(i, j) && le(j, k) ensures le(i, k) {
      LexTransitive(eps[i].targetRef, eps[j].targetRef, eps[k].targetRef);
    }
  }

  lemma IdsNext(refs: seq<string>, hash: string -> nat, ids: seq<nat>, ref: string, id: nat)
    requires IdsFor(refs, hash, ids) && FirstFree(Members(ids), hash(ref), id)
    ensures IdsFor(refs + [ref], hash, ids + [id])
  {
    hide FirstFree, Members;
    var refs', ids' := refs + [ref], ids + [id];
    forall k | 0 <= k < |ids'| ensures FirstFree(Members(ids'[..k]), hash(refs'[k]), ids'[k]) {
      if k < |ids| {
        assert ids'[..k] == ids[..k];
      } else {
        assert ids'[..k] == ids;
      }
    }
  }

  lemma GivenNext(was: seq<Endpoint>, now: seq<Endpoint>, from: seq<nat>, ids: seq<nat>, i: nat, id: nat)
    requires Given(was, now, from, ids) && i < |was| && i !in from
    ensures Given(was, now[i := now[i].(puid := id)], from + [i], ids + [id])
  {
  }

  /** `from` lists those of the positions in `order` whose endpoint has a TargetRef. */
  ghost predicate ListedOf(eps: seq<Endpoint>, from: seq<nat>, order: seq<nat>)
  {
    && Listed(eps, from) && |from| <= |order|
    && (forall i :: 0 <= i < |eps| ==> (i in from <==> i in order && eps[i].targetRef != ""))
  }

  lemma ListedNext(eps: seq<Endpoint>, from: seq<nat>, order: seq<nat>, i: nat)
    requires ListedOf(eps, from, order) && i < |eps| && i !in order
    requires forall j :: 0 <= j < |order| ==> RefLe(eps, order[j], i)
    ensures i !in from
    ensures ListedOf(eps, if eps[i].targetRef != "" then from + [i] else from, order + [i])
  {
    forall m | 0 <= m < |from| ensures from[m] != i && LexLe(eps[from[m]].targetRef, eps[i].targetRef) {
      assert from[m] in from;
      assert from[m] in order;
    }
  }

  /** The id of one endpoint. */
  method GiveId(back: Backend, i: nat, used: set<nat>, hash: string -> nat, ghost was: seq<Endpoint>, ghost from: seq<nat>,
                ghost ids: seq<nat>) returns (id: nat)
    requires forall ref :: hash(ref) < LIMIT
    requires i < |back.endpoints| && i !in from && |ids| < LIMIT - 1 && used == Members(ids)
    requires Listed(was, from) && IdsFor(RefsOf(was, from), hash, ids) && Given(was, back.endpoints, from, ids)
    modifies back`endpoints
    ensures IdsFor(RefsOf(was, from) + [was[i].targetRef], hash, ids + [id])
    ensures Given(was, back.endpoints, from + [i], ids + [id])
  {
    hide IdsFor, FirstFree;
    MembersSize(ids);
    var ep := back.endpoints[i];
    id := Probe(used, hash(ep.targetRef));
    IdsNext(RefsOf(was, from), hash, ids, ep.targetRef, id);
    GivenNext(was, back.endpoints, from, ids, i, id);
    back.endpoints := back.endpoints[i := ep.(puid := id)];
  }

  /** Gives an id to every endpoint that has a TargetRef. */
  method SyncEndpointHashes(back: Backend, hash: string -> nat) returns (ghost from: seq<nat>, ghost ids: seq<nat>)
    requires forall ref :: hash(ref) < LIMIT
    requires |back.endpoints| < LIMIT
    modifies back`endpoints
    ensures AllListed(old(back.endpoints), from)
    ensures IdsFor(RefsOf(old(back.endpoints), from), hash, ids)
    ensures Given(old(back.endpoints), back.endpoints, from, ids)
    ensures DistinctIds(back.endpoints)
  {
    hide Progress, IdsFor, DistinctIds;
    ghost var was := back.endpoints;
    var order := SortByRef(back.endpoints);
    var used: set<nat> := {};
    from, ids := [], [];
    NothingGiven(was, hash);
    for k := 0 to |order|
      invariant Progress(was, back.endpoints, from, ids, order[..k], used, hash)
    {
      assert order[..k + 1] == order[..k] + [order[k]];
      used, from, ids := VisitOne(back, order[k], used, hash, was, from, ids, order[..k]);
    }
    assert order[..|order|] == order;
    Finished(was, back.endpoints, from, ids, order, used, hash);
  }

  /** The positions in `order` were visited. */
  ghost predicate Progress(was: seq<Endpoint>, now: seq<Endpoint>, from: seq<nat>, ids: seq<nat>, order: seq<nat>,
                           used: set<nat>, hash: string -> nat)
  {
    && ListedOf(was, from, order) && Given(was, now, from, ids)
    && used == Members(ids) && IdsFor(RefsOf(was, from), hash, ids)
  }

  method VisitOne(back: Backend, i: nat, used: set<nat>, hash: string -> nat, ghost was: seq<Endpoint>, ghost from: seq<nat>,
                  ghost ids: seq<nat>, ghost order: seq<nat>)
      returns (used': set<nat>, ghost from': seq<nat>, ghost ids': seq<nat>)
    requires forall ref :: hash(ref) < LIMIT
    requires Progress(was, back.endpoints, from, ids, order, used, hash) && |order| < |was| < LIMIT
    requires i < |was| && i !in order && forall j :: 0 <= j < |order| ==> RefLe(was, order[j], i)
    modifies back`endpoints
    ensures Progress(was, back.endpoints, from', ids', order + [i], used', hash)
  {
    hide IdsFor, Members, RefLe;
    used', from', ids' := used, from, ids;
    ListedNext(was, from, order, i);
    if back.endpoints[i].targetRef != "" {
      var id := GiveId(back, i, used, hash, was, from, ids);
      MembersNext(ids, id);
      assert RefsOf(was, from + [i]) == RefsOf(was, from) + [was[i].targetRef];
      used', from', ids' := used + {id}, from + [i], ids + [id];
    }
  }

  /** The ids are pairwise distinct and in range. */
  lemma IdsDistinct(refs: seq<string>, hash: string -> nat, ids: seq<nat>)
    requires IdsFor(refs, hash, ids)
    ensures forall k :: 0 <= k < |ids| ==> 0 < ids[k] < LIMIT
    ensures forall j, k :: 0 <= j < k < |ids| ==> ids[j] != ids[k]
  {
    forall j, k | 0 <= j < k < |ids| ensures ids[j] != ids[k] {
      assert Free(Members(ids[..k]), ids[k]);
      assert ids[j] == ids[..k][j];
    }
  }

  lemma AllDistinct(was: seq<Endpoint>, now: seq<Endpoint>, from: seq<nat>, hash: string -> nat, ids: seq<nat>)
    requires AllListed(was, from) && IdsFor(RefsOf(was, from), hash, ids) && Given(was, now, from, ids)
    ensures DistinctIds(now)
  {
    IdsDistinct(RefsOf(was, from), hash, ids);
    forall i | 0 <= i < |was| && now[i].targetRef != "" ensures exists m :: 0 <= m < |from| && from[m] == i {
      assert i in from ==> exists m :: 0 <= m < |from| && from[m] == i;
    }
  }

  lemma Finished(was: seq<Endpoint>, now: seq<Endpoint>, from: seq<nat>, ids: seq<nat>, order: seq<nat>,
                 used: set<nat>, hash: string -> nat)
    requires Progress(was, now, from, ids, order, used, hash) && forall i :: 0 <= i < |was| ==> i in order
    ensures AllListed(was, from) && IdsFor(RefsOf(was, from), hash, ids) && Given(was, now, from, ids) && DistinctIds(now)
  {
    hide IdsFor, DistinctIds;
    AllDistinct(was, now, from, hash, ids);
  }

  lemma NothingGiven(was: seq<Endpoint>, hash: string -> nat)
    ensures Progress(was, was, [], [], [], {}, hash)
  {
  }

  lemma MembersNext(ids: seq<nat>, id: nat)
    ensures Members(ids + [id]) == Members(ids) + {id}
  {
  }

  /** Endpoints with a TargetRef have pairwise distinct ids, in range. */
  ghost predicate DistinctIds(eps: seq<Endpoint>)
  {
    && (forall i :: 0 <= i < |eps| && eps[i].targetRef != "" ==> 0 < eps[i].puid < LIMIT)
    && (forall i, j :: 0 <= i < j < |eps| && eps[i].targetRef != "" && eps[j].targetRef != "" ==> eps[i].puid != eps[j].puid)
  }

  /** No two endpoints have the same TargetRef. */
  ghost predicate DistinctRefs(eps: seq<Endpoint>)
  {
    forall i, j :: 0 <= i < j < |eps| && eps[i].targetRef != "" ==> eps[i].targetRef != eps[j].targetRef
  }

  ghost predicate HasRef(eps: seq<Endpoint>, ref: string)
  {
    exists i :: 0 <= i < |eps| && eps[i].targetRef == ref
  }

  lemma RefsAscend(eps: seq<Endpoint>, from: seq<nat>)
    requires AllListed(eps, from) && DistinctRefs(eps)
    ensures SortedBy(RefsOf(eps, from), LexLess)
    ensures forall ref :: ref in RefsOf(eps, from) <==> ref != "" && HasRef(eps, ref)
  {
    var refs := RefsOf(eps, from);
    forall m, n | 0 <= m < n < |refs| ensures LexLess(refs[m], refs[n]) {
      assert from[m] != from[n];
    }
    forall ref ensures ref in refs <==> ref != "" && HasRef(eps, ref) {
      if ref in refs {
        var m :| 0 <= m < |refs| && refs[m] == ref;
        assert eps[from[m]].targetRef == ref;
      }
      if ref != "" && HasRef(eps, ref) {
        var i :| 0 <= i < |eps| && eps[i].targetRef == ref;
        assert i in from;
        var m :| 0 <= m < |from| && from[m] == i;
        assert refs[m] == ref;
      }
    }
  }

  lemma LexLessAsymmetric()
    ensures Asymmetric(LexLess)
  {
    forall x, y | LexLess(x, y) ensures !LexLess(y, x) {
      if LexLe(y, x) {
        LexAntisymmetric(x, y);
      }
    }
  }

  /**
   * If TargetRefs are distinct, ids do not depend on the order of the endpoints: the same pods have the same ids,
   * however they are listed.
   */
  lemma OrderIndependent(eps: seq<Endpoint>, from: seq<nat>, ids: seq<nat>, eps': seq<Endpoint>, from': seq<nat>, ids': seq<nat>,
                         hash: string -> nat, now: seq<Endpoint>, now': seq<Endpoint>, i: nat, j: nat)
    requires AllListed(eps, from) && IdsFor(RefsOf(eps, from), hash, ids) && Given(eps, now, from, ids)
    requires AllListed(eps', from') && IdsFor(RefsOf(eps', from'), hash, ids') && Given(eps', now', from', ids')
    requires DistinctRefs(eps) && DistinctRefs(eps') && forall ref :: HasRef(eps, ref) <==> HasRef(eps', ref)
    requires i < |eps| == |now| && j < |eps'| == |now'| && eps[i].targetRef == eps'[j].targetRef != ""
    ensures now[i].puid == now'[j].puid
  {
    hide IdsFor, DistinctRefs, Given, SortedBy;
    var refs := RefsOf(eps, from);
    SameRefs(eps, from, eps', from');
    SameIds(refs, hash, ids, ids');
    var m := PositionOf(eps, from, ids, now, i);
    var n := PositionOf(eps', from', ids', now', j);
    SamePosition(refs, m, n);
  }

  lemma SameRefs(eps: seq<Endpoint>, from: seq<nat>, eps': seq<Endpoint>, from': seq<nat>)
    requires AllListed(eps, from) && AllListed(eps', from')
    requires DistinctRefs(eps) && DistinctRefs(eps') && forall ref :: HasRef(eps, ref) <==> HasRef(eps', ref)
    ensures RefsOf(eps, from) == RefsOf(eps', from') && SortedBy(RefsOf(eps, from), LexLess)
  {
    hide LexLess, HasRef, SortedBy;
    RefsAscend(eps, from);
    RefsAscend(eps', from');
    LexLessAsymmetric();
    AscendingUnique(RefsOf(eps, from), RefsOf(eps', from'), LexLess);
  }

  lemma PositionOf(eps: seq<Endpoint>, from: seq<nat>, ids: seq<nat>, now: seq<Endpoint>, i: nat) returns (m: nat)
    requires AllListed(eps, from) && Given(eps, now, from, ids) && i < |eps| && eps[i].targetRef != ""
    ensures m < |from| == |ids| && |now| == |eps| && RefsOf(eps, from)[m] == eps[i].targetRef && now[i].puid == ids[m]
  {
    m :| 0 <= m < |from| && from[m] == i;
  }

  lemma SameIds(refs: seq<string>, hash: string -> nat, ids: seq<nat>, ids': seq<nat>)
    requires IdsFor(refs, hash, ids) && IdsFor(refs, hash, ids')
    ensures ids == ids'
  {
    IdsUnique(refs, hash, ids, ids', |refs|);
    assert ids[..|refs|] == ids && ids'[..|refs|] == ids';
  }

  lemma SamePosition(refs: seq<string>, m: nat, n: nat)
    requires SortedBy(refs, LexLess) && m < |refs| && n < |refs| && refs[m] == refs[n]
    ensures m == n
  {
  }
}
