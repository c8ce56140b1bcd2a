/** Alignment of the number of slots of a backend, done before a reload. */
module SlotAlignment {
  import opened Endpoints
  import opened Arithmetic

  function CountEmpty(eps: seq<Endpoint>): (n: nat)
    ensures n <= |eps|
  {
    if eps == [] then 0
    else CountEmpty(eps[..|eps| - 1]) + (if IsEmpty(eps[|eps| - 1]) then 1 else 0)
  }

  function BlockSize(d: Dynamic): (n: nat)
    ensures n >= 1
  {
    if d.blockSize < 1 then 1 else d.blockSize
  }

  /**
   * A backend with this many slots, and this many of them free, is aligned: enough are free, there are whole blocks
   * only, and a backend that asks for no free slot has a block anyway.
   */
  ghost predicate Aligned(d: Dynamic, slots: nat, free: nat)
  {
    free >= d.minFreeSlots && Divides(BlockSize(d), slots) && !(d.minFreeSlots == 0 && slots == 0)
  }

  /** The endpoints would be aligned if empty slots were appended until there are n slots. */
  ghost predicate AlignedAt(d: Dynamic, eps: seq<Endpoint>, n: nat)
  {
    n >= |eps| && Aligned(d, n, CountEmpty(eps) + n - |eps|)
  }

  /** n is the least number of slots, not less than those of `eps`, that is aligned. */
  ghost predicate LeastAligned(d: Dynamic, eps: seq<Endpoint>, n: nat)
  {
    AlignedAt(d, eps, n) && forall m: nat :: AlignedAt(d, eps, m) ==> m >= n
  }

  // ---------------------------------------------------------------- in terms of the settings

  /** The number of slots at the address of an empty one. */
  ghost function FreeSlots(eps: seq<Endpoint>): nat
  {
    |FreeSet(eps)|
  }

  ghost function FreeSet(eps: seq<Endpoint>): set<int>
  {
    set i | 0 <= i < |eps| && eps[i].ip == "127.0.0.1"
  }

  lemma FreeSetNext(eps: seq<Endpoint>, ep: Endpoint)
    ensures FreeSet(eps + [ep]) == FreeSet(eps) + (if ep.ip == "127.0.0.1" then {|eps|} else {})
    ensures |eps| !in FreeSet(eps)
  {
  }

  lemma {:induction false} CountEmptyIs(eps: seq<Endpoint>)
    ensures CountEmpty(eps) == FreeSlots(eps)
  {
    hide FreeSet;
    if eps == [] {
      NoneFree();
    } else {
      var n := |eps| - 1;
      CountEmptyIs(eps[..n]);
      FreeSetNext(eps[..n], eps[n]);
      assert eps == eps[..n] + [eps[n]];
    }
  }

  lemma NoneFree()
    ensures FreeSet([]) == {}
  {
  }

  /**
   * n slots are enough for a backend that has this many, and this many of them free: the blocks are full, enough slots are
   * free, and there is a block at least if no free slot is asked for.
   */
  ghost predicate Covers(d: Dynamic, slots: nat, free: nat, n: nat)
  {
    && n >= slots
    && (d.blockSize >= 1 ==> n % d.blockSize == 0)
    && free + n - slots >= d.minFreeSlots
    && (slots == 0 && d.minFreeSlots == 0 ==> n > 0)
  }

  ghost predicate LeastCovering(d: Dynamic, eps: seq<Endpoint>, n: nat)
  {
    Covers(d, |eps|, FreeSlots(eps), n) && forall m: nat :: Covers(d, |eps|, FreeSlots(eps), m) ==> m >= n
  }

  lemma AlignedMeans(d: Dynamic, slots: nat, free: nat)
    ensures Aligned(d, slots, free) <==>
              && free >= d.minFreeSlots && !(d.minFreeSlots == 0 && slots == 0)
              && (d.blockSize >= 1 ==> slots % d.blockSize == 0)
  {
    if d.blockSize >= 1 {
      DividesRemainder(d.blockSize, slots);
    } else {
      assert slots == Times(slots, 1);
    }
  }

  /** The least aligned number of slots is the least one that covers what the backend has. */
  lemma LeastCovers(d: Dynamic, eps: seq<Endpoint>, n: nat)
    requires LeastAligned(d, eps, n)
    ensures LeastCovering(d, eps, n)
  {
    hide Aligned, CountEmpty, FreeSlots;
    CountEmptyIs(eps);
    AlignedMeans(d, n, CountEmpty(eps) + n - |eps|);
    forall m: nat | Covers(d, |eps|, FreeSlots(eps), m) ensures m >= n {
      AlignedMeans(d, m, CountEmpty(eps) + m - |eps|);
      assert AlignedAt(d, eps, m);
    }
  }

  lemma FirstBlock(d: Dynamic, eps: seq<Endpoint>)
    requires d.minFreeSlots == 0 && eps == []
    ensures LeastAligned(d, eps, BlockSize(d))
  {
    var block := BlockSize(d);
    assert block == Times(1, block);
    forall m: nat | AlignedAt(d, eps, m) ensures m >= block {
      var k :| m == Times(k, block);
      MultiplesApart(0, k, block);
    }
  }

  /** `top` is the least multiple of the block size that is not less than `len`. */
  ghost predicate RoundedUp(len: nat, block: nat, top: nat)
  {
    top >= len && Divides(block, top) && forall m: nat :: m >= len && Divides(block, m) ==> m >= top
  }

  lemma LastBlock(d: Dynamic, eps: seq<Endpoint>, len: nat, top: nat)
    requires !(d.minFreeSlots == 0 && eps == [])
    requires len >= |eps| && CountEmpty(eps) + len - |eps| >= d.minFreeSlots
    requires len == |eps| || CountEmpty(eps) + len - |eps| == d.minFreeSlots
    requires RoundedUp(len, BlockSize(d), top)
    ensures LeastAligned(d, eps, top)
  {
  }

  lemma MultiplesApart(p: int, q: int, block: nat)
    ensures Times(p, block) < Times(q, block) ==> Times(p, block) + block <= Times(q, block)
  {
    if p < q {
      Monotone(p + 1, q, block);
    } else {
      Monotone(q, p, block);
    }
  }

  /** How many slots are missing in the last block. */
  method LastBlockFree(len: nat, block: nat) returns (added: nat)
    requires block >= 1
    ensures RoundedUp(len, block, len + added)
  {
    added := block - ((len + block - 1) % block + 1);
    ghost var q := (len + block - 1) / block;
    assert len + added == Times(q, block);
    forall m: nat | m >= len && Divides(block, m) ensures m >= len + added {
      var p :| m == Times(p, block);
      MultiplesApart(p, q, block);
    }
  }

  lemma {:induction false} PaddingCount(config: Config, eps: seq<Endpoint>, eps': seq<Endpoint>, n: nat)
    requires PaddedTo(config, eps, eps', n)
    ensures CountEmpty(eps') == CountEmpty(eps) + n - |eps|
    decreases n - |eps|
  {
    if n == |eps| {
      assert eps' == eps;
    } else {
      PaddingCount(config, eps, eps'[..n - 1], n - 1);
    }
  }

  method CountFree(eps: seq<Endpoint>) returns (n: nat)
    ensures n == CountEmpty(eps)
  {
    n := 0;
    for i := 0 to |eps|
      invariant n == CountEmpty(eps[..i])
    {
      assert eps[..i + 1][..i] == eps[..i];
      if IsEmpty(eps[i]) {
        n := n + 1;
      }
    }
    assert eps[..|eps|] == eps;
  }

  /** Appends k empty slots. */
  method AddEmpties(back: Backend, k: nat, ghost eps: seq<Endpoint>)
    requires PaddedTo(back.config, eps, back.endpoints, |back.endpoints|)
    modifies back`endpoints
    ensures |back.endpoints| == |old(back.endpoints)| + k
    ensures PaddedTo(back.config, eps, back.endpoints, |back.endpoints|)
  {
    for i := 0 to k
      invariant |back.endpoints| == |old(back.endpoints)| + i
      invariant PaddedTo(back.config, eps, back.endpoints, |back.endpoints|)
    {
      back.AddEmptyEndpoint();
    }
  }

  /**
   * Gives the backend the least number of empty slots that makes it aligned. In particular nothing is added to a
   * backend that is aligned already. The result tells if something was added.
   */
  method AlignSlots(back: Backend) returns (changed: bool)
    modifies back`endpoints
    ensures PaddedTo(back.config, old(back.endpoints), back.endpoints, |back.endpoints|)
    ensures changed <==> |back.endpoints| > |old(back.endpoints)|
    ensures !back.dynamic.dynUpdate ==> !changed
    ensures back.dynamic.dynUpdate ==> Aligned(back.dynamic, |back.endpoints|, CountEmpty(back.endpoints))
    ensures back.dynamic.dynUpdate ==> LeastAligned(back.dynamic, old(back.endpoints), |back.endpoints|)
    ensures Aligned(back.dynamic, |old(back.endpoints)|, old(CountEmpty(back.endpoints))) ==> !changed
    ensures back.dynamic.dynUpdate ==> LeastCovering(back.dynamic, old(back.endpoints), |back.endpoints|)
  {
    hide CountEmpty, EmptySlot, LeastCovering;
    changed := false;
    if !back.dynamic.dynUpdate {
      return;
    }
    ghost var eps := back.endpoints;
    var block := BlockSize(back.dynamic);
    var added;
    if back.dynamic.minFreeSlots == 0 && |back.endpoints| == 0 {
      added := block;
      FirstBlock(back.dynamic, eps);
    } else {
      var free := CountFree(back.endpoints);
      if free < back.dynamic.minFreeSlots {
        AddEmpties(back, back.dynamic.minFreeSlots - free, eps);
        changed := true;
      }
      var len := |back.endpoints|;
      added := LastBlockFree(len, block);
      LastBlock(back.dynamic, eps, len, len + added);
    }
    if added > 0 {
      AddEmpties(back, added, eps);
      changed := true;
    }
    PaddingCount(back.config, eps, back.endpoints, |back.endpoints|);
    LeastCovers(back.dynamic, eps, |back.endpoints|);
  }
}
