/** Balance between clusters of endpoints: the weight of a cluster becomes a weight for each of its endpoints. */
module Weights {
  import opened Arithmetic

  datatype Cluster = Cluster(weight: int, length: nat)

  /** An empty cluster, or one without weight, is not considered. */
  predicate Counts(cl: Cluster)
  {
    cl.length > 0 && cl.weight > 0
  }

  /** The weight of each endpoint of a cluster, in units of one over `lcm`. */
  function Share(cl: Cluster, lcm: nat): int
    requires cl.length > 0
  {
    cl.weight * lcm / cl.length
  }

  /** All the lengths divide the number, and it divides every other such number. */
  ghost predicate IsLcmOf(lcm: int, cls: seq<Cluster>)
  {
    && (forall i :: 0 <= i < |cls| && cls[i].length > 0 ==> Divides(cls[i].length, lcm))
    && (forall n :: (forall i :: 0 <= i < |cls| && cls[i].length > 0 ==> Divides(cls[i].length, n)) ==> Divides(lcm, n))
  }

  ghost predicate AllEmpty(cls: seq<Cluster>)
  {
    forall i :: 0 <= i < |cls| ==> cls[i].length == 0
  }

  method LcmOfLengths(cls: seq<Cluster>) returns (lcm: nat)
    ensures lcm == 0 <==> AllEmpty(cls)
    ensures lcm > 0 ==> IsLcmOf(lcm, cls)
  {
    lcm := 0;
    for k := 0 to |cls|
      invariant lcm == 0 <==> AllEmpty(cls[..k])
      invariant lcm > 0 ==> IsLcmOf(lcm, cls[..k])
    {
      assert cls[..k + 1] == cls[..k] + [cls[k]];
      if cls[k].length != 0 {
        if lcm > 0 {
          var m := Lcm(lcm, cls[k].length);
          LcmExtended(lcm, cls[..k], cls[k], m);
          lcm := m;
        } else {
          lcm := cls[k].length;
          LcmFirst(cls[..k], cls[k]);
        }
      }
    }
    assert cls[..|cls|] == cls;
  }

  lemma LcmExtended(lcm: nat, cls: seq<Cluster>, cl: Cluster, m: nat)
    requires IsLcmOf(lcm, cls) && cl.length > 0 && IsLcm(m, lcm, cl.length)
    ensures IsLcmOf(m, cls + [cl])
  {
    var all := cls + [cl];
    forall i | 0 <= i < |all| && all[i].length > 0 ensures Divides(all[i].length, m) {
      if i < |cls| {
        assert all[i] == cls[i];
        DividesTransitive(all[i].length, lcm, m);
      }
    }
    forall n | forall i :: 0 <= i < |all| && all[i].length > 0 ==> Divides(all[i].length, n) ensures Divides(m, n) {
      assert Divides(all[|cls|].length, n);
      forall i | 0 <= i < |cls| && cls[i].length > 0 ensures Divides(cls[i].length, n) {
        assert all[i] == cls[i];
      }
    }
  }

  lemma LcmFirst(cls: seq<Cluster>, cl: Cluster)
    requires AllEmpty(cls) && cl.length > 0
    ensures IsLcmOf(cl.length, cls + [cl])
  {
    var all := cls + [cl];
    DividesTimes(cl.length, 0);
    assert all[|cls|] == cl;
  }

  /** The division by the length is exact. */
  lemma ShareExact(cl: Cluster, lcm: nat)
    requires cl.length > 0 && cl.weight >= 0 && lcm > 0 && Divides(cl.length, lcm)
    ensures Share(cl, lcm) * cl.length == cl.weight * lcm
    ensures Share(cl, lcm) >= 0 && (Share(cl, lcm) > 0 <==> cl.weight > 0)
  {
    var k :| lcm == Times(k, cl.length);
    QuotientOf(lcm, k, cl.length);
    assert cl.weight * (k * cl.length) == (cl.weight * k) * cl.length;
    assert cl.weight * k >= 0;
    QuotientOf(cl.weight * lcm, cl.weight * k, cl.length);
    if cl.weight > 0 {
      Monotone(1, cl.weight, k);
    }
  }

  /** The shares of the clusters that count: their greatest common divisor, the least and the greatest of them. */
  ghost predicate Bounds(cls: seq<Cluster>, lcm: nat, gcd: int, min: int, max: int)
  {
    && gcd > 0 && 0 < min <= max
    && (forall i :: 0 <= i < |cls| && Counts(cls[i]) ==> min <= Share(cls[i], lcm) <= max && Divides(gcd, Share(cls[i], lcm)))
    && (exists i :: 0 <= i < |cls| && Counts(cls[i]) && Share(cls[i], lcm) == min)
    && (exists i :: 0 <= i < |cls| && Counts(cls[i]) && Share(cls[i], lcm) == max)
  }

  ghost predicate NoneCounts(cls: seq<Cluster>)
  {
    forall i :: 0 <= i < |cls| ==> !Counts(cls[i])
  }

  lemma BoundsFirst(cls: seq<Cluster>, cl: Cluster, lcm: nat)
    requires NoneCounts(cls) && Counts(cl) && Share(cl, lcm) > 0
    ensures Bounds(cls + [cl], lcm, Share(cl, lcm), Share(cl, lcm), Share(cl, lcm))
  {
    var all := cls + [cl];
    DividesTimes(Share(cl, lcm), 0);
    assert all[|cls|] == cl;
  }

  lemma BoundsExtended(cls: seq<Cluster>, cl: Cluster, lcm: nat, gcd: nat, min: int, max: int, gcd': nat)
    requires Bounds(cls, lcm, gcd, min, max) && Counts(cl) && Share(cl, lcm) > 0 && IsGcd(gcd', gcd, Share(cl, lcm)) && gcd' > 0
    ensures var c := Share(cl, lcm);
            Bounds(cls + [cl], lcm, gcd', if c < min then c else min, if c > max then c else max)
  {
    var c := Share(cl, lcm);
    var min', max' := if c < min then c else min, if c > max then c else max;
    var all := cls + [cl];
    assert all[|cls|] == cl;
    forall i | 0 <= i < |all| && Counts(all[i])
      ensures min' <= Share(all[i], lcm) <= max' && Divides(gcd', Share(all[i], lcm))
    {
      if i < |cls| {
        assert all[i] == cls[i];
        DividesTransitive(gcd', gcd, Share(all[i], lcm));
      }
    }
    var lo :| 0 <= lo < |cls| && Counts(cls[lo]) && Share(cls[lo], lcm) == min;
    var hi :| 0 <= hi < |cls| && Counts(cls[hi]) && Share(cls[hi], lcm) == max;
    assert all[lo] == cls[lo] && all[hi] == cls[hi];
  }

  method MeasureShares(cls: seq<Cluster>, lcm: nat) returns (gcd: nat, min: int, max: int)
    requires lcm > 0 && IsLcmOf(lcm, cls)
    requires forall i :: 0 <= i < |cls| ==> cls[i].weight >= 0
    ensures gcd == 0 <==> NoneCounts(cls)
    ensures gcd > 0 ==> Bounds(cls, lcm, gcd, min, max)
  {
    gcd, min, max := 0, -1, 0;
    for k := 0 to |cls|
      invariant gcd == 0 <==> NoneCounts(cls[..k])
      invariant gcd == 0 ==> min == -1 && max == 0
      invariant gcd > 0 ==> Bounds(cls[..k], lcm, gcd, min, max)
    {
      assert cls[..k + 1] == cls[..k] + [cls[k]];
      if cls[k].length == 0 || cls[k].weight == 0 {
        BoundsSkipped(cls[..k], cls[k], lcm, gcd, min, max);
      } else {
        ShareExact(cls[k], lcm);
        var c := cls[k].weight * lcm / cls[k].length;
        if gcd > 0 {
          var g := Gcd(gcd, c);
          BoundsExtended(cls[..k], cls[k], lcm, gcd, min, max, g);
          gcd := g;
        } else {
          BoundsFirst(cls[..k], cls[k], lcm);
          gcd := c;
        }
        if c < min || min < 0 {
          min := c;
        }
        if c > max {
          max := c;
        }
      }
    }
    assert cls[..|cls|] == cls;
  }

  lemma BoundsSkipped(cls: seq<Cluster>, cl: Cluster, lcm: nat, gcd: int, min: int, max: int)
    requires !Counts(cl)
    ensures NoneCounts(cls) <==> NoneCounts(cls + [cl])
    ensures Bounds(cls, lcm, gcd, min, max) ==> Bounds(cls + [cl], lcm, gcd, min, max)
  {
    var all := cls + [cl];
    assert forall i :: 0 <= i < |cls| ==> all[i] == cls[i];
    assert all[|cls|] == cl;
    if Bounds(cls, lcm, gcd, min, max) {
      var lo :| 0 <= lo < |cls| && Counts(cls[lo]) && Share(cls[lo], lcm) == min;
      var hi :| 0 <= hi < |cls| && Counts(cls[hi]) && Share(cls[hi], lcm) == max;
      assert all[lo] == cls[lo] && all[hi] == cls[hi];
    }
  }

  // ---------------------------------------------------------------- scaling

  /** Conversion to an integer, which drops the fraction. */
  function Truncated(x: real): int
  {
    if x >= 0.0 then x.Floor else -(-x).Floor
  }

  function Trimmed(weight: real, factor: real, positive: bool): int
  {
    if factor > 1.0 then
      var prop := Truncated(weight / factor);
      if prop == 0 && positive then 1 else prop
    else
      Truncated(weight)
  }

  lemma MinFactorIs(initial: int, gcd: int, min: int, k: real)
    requires gcd > 0 && min > 0 && k * min as real == initial as real
    ensures (initial * gcd) as real / min as real == k * gcd as real
  {
  }

  /** The common divisor of the shares cancels out. */
  lemma ScaledIs(minFactor: real, cl: Cluster, lcm: nat, gcd: int, c: int, k: real)
    requires cl.length > 0 && gcd > 0 && c * cl.length == cl.weight * lcm && minFactor == k * gcd as real
    ensures minFactor * (cl.weight * lcm) as real / (cl.length * gcd) as real == c as real * k
  {
  }

  lemma FactorIs(minFactor: real, gcd: int, max: int, k: real)
    requires gcd > 0 && minFactor == k * gcd as real
    ensures minFactor * max as real / (256 * gcd) as real * 256.0 == max as real * k
  {
  }

  /** What a share is multiplied with: k, or s if that is too much for the greatest share. */
  function Scale(max: real, k: real, s: real): real
  {
    if max * k > 256.0 then s else k
  }

  /** Rounded down, but not to zero. */
  function Rounded(x: real, positive: bool): int
  {
    if x.Floor == 0 && positive then 1 else x.Floor
  }

  lemma ScaleBounds(min: real, max: real, i: real, k: real, s: real, c: real)
    requires 0.0 < min <= max && i >= 1.0 && k * min == i && s * max == 256.0
    ensures k > 0.0 && s > 0.0
    ensures 0.0 <= c <= max ==> 0.0 <= c * Scale(max, k, s) <= 256.0
    ensures c >= min ==> c * k >= 1.0
  {
    ProductBounds(k, min, i, c);
    ProductBounds(s, max, 256.0, c);
    ScaleUpper(max, k, s, c);
  }

  lemma ScaleUpper(max: real, k: real, s: real, c: real)
    requires max > 0.0 && k > 0.0 && s > 0.0 && s * max == 256.0
    ensures 0.0 <= c <= max ==> 0.0 <= c * Scale(max, k, s) <= 256.0
  {
    if 0.0 <= c <= max {
      if max * k > 256.0 {
        UpperProduct(c, max, s);
      } else {
        UpperProduct(c, max, k);
      }
    }
  }

  lemma UpperProduct(c: real, max: real, k: real)
    requires 0.0 <= c <= max && k > 0.0 && max * k <= 256.0
    ensures 0.0 <= c * k <= 256.0
  {
  }

  lemma ProductBounds(k: real, m: real, i: real, c: real)
    requires m > 0.0 && i > 0.0 && k * m == i
    ensures k > 0.0
    ensures c >= m ==> c * k >= i
    ensures 0.0 <= c <= m ==> 0.0 <= c * k <= i
  {
  }

  lemma TrimmedIs(weight: real, factor: real, positive: bool, x: real)
    requires x >= 0.0
    requires if factor > 1.0 then weight / factor == x else weight == x && (positive ==> x >= 1.0)
    ensures Trimmed(weight, factor, positive) == Rounded(x, positive)
  {
  }

  lemma ScaledOrReduced(weight: real, factor: real, c: real, max: real, k: real, s: real)
    requires weight == c * k && factor * 256.0 == max * k && s * max == 256.0
    ensures factor > 1.0 ==> weight / factor == c * Scale(max, k, s)
    ensures factor <= 1.0 ==> weight == c * Scale(max, k, s) && Scale(max, k, s) == k
  {
  }

  lemma RoundedNear(c: int, scale: real)
    requires c >= 0 && scale > 0.0 && c as real * scale <= 256.0
    ensures var n := Rounded(c as real * scale, c > 0);
            && 0 <= n <= 256 && (n == 0 <==> c == 0)
            && c as real * scale - 1.0 < n as real < c as real * scale + 1.0
  {
  }

  // ---------------------------------------------------------------- the result

  /**
   * The new weight n of each endpoint is one that HAProxy takes, it is zero if and only if the cluster has no weight,
   * and the total of the cluster is k times its weight, but for less than one per endpoint.
   */
  ghost predicate GoodWeight(cl: Cluster, n: int, k: real)
  {
    && 0 <= n <= 256 && (n == 0 <==> cl.weight == 0)
    && -(cl.length as real) < (n * cl.length) as real - k * cl.weight as real < cl.length as real
  }

  /** A cluster with no more weight per endpoint than another does not get more. */
  ghost predicate OrderKept(cl1: Cluster, n1: int, cl2: Cluster, n2: int)
  {
    cl1.weight * cl2.length <= cl2.weight * cl1.length ==> n1 <= n2
  }

  ghost predicate Proportional(was: seq<Cluster>, now: seq<Cluster>, k: real)
    requires |was| == |now|
  {
    forall i :: 0 <= i < |was| && was[i].length > 0 ==> GoodWeight(was[i], now[i].weight, k)
  }

  ghost predicate Rebalanced(was: seq<Cluster>, now: seq<Cluster>)
    requires |was| == |now|
  {
    && (exists k :: k > 0.0 && Proportional(was, now, k))
    && (forall i, j :: 0 <= i < |was| && 0 <= j < |was| && was[i].length > 0 && was[j].length > 0 ==>
                         OrderKept(was[i], now[i].weight, was[j], now[j].weight))
  }

  /** No cluster that counts has less weight per endpoint. */
  ghost predicate IsLeast(cls: seq<Cluster>, m: int)
  {
    && 0 <= m < |cls| && cls[m].length > 0 && cls[m].weight > 0
    && (forall i :: 0 <= i < |cls| && cls[i].length > 0 && cls[i].weight > 0 ==>
                      cls[m].weight * cls[i].length <= cls[i].weight * cls[m].length)
  }

  /** No cluster that counts has more weight per endpoint. */
  ghost predicate IsGreatest(cls: seq<Cluster>, g: int)
  {
    && 0 <= g < |cls| && cls[g].length > 0 && cls[g].weight > 0
    && (forall i :: 0 <= i < |cls| && cls[i].length > 0 && cls[i].weight > 0 ==>
                      cls[i].weight * cls[g].length <= cls[g].weight * cls[i].length)
  }

  /** With the initial weight for the least cluster, the greatest one gets 256 at most. */
  ghost predicate Fits(least: Cluster, greatest: Cluster, initial: int)
  {
    initial * (greatest.weight * least.length) <= 256 * (least.weight * greatest.length)
  }

  /** The weight in the proportion that gives `top` to the endpoints of `ref`, rounded down, but not to zero. */
  ghost predicate IsWeight(cl: Cluster, n: int, ref: Cluster, top: int)
  {
    var a, b := top * (cl.weight * ref.length), ref.weight * cl.length;
    if 0 < a < b then n == 1 else n * b <= a < (n + 1) * b
  }

  /**
   * The endpoints of the least cluster get the initial weight if those of the greatest one then get 256 at most,
   * otherwise the endpoints of the greatest cluster get 256; all the others follow in proportion.
   */
  ghost predicate Anchored(was: seq<Cluster>, now: seq<Cluster>, initial: int)
    requires |was| == |now|
  {
    forall m, g, i :: IsLeast(was, m) && IsGreatest(was, g) && 0 <= i < |was| && was[i].length > 0 ==>
                        if Fits(was[m], was[g], initial)
                        then IsWeight(was[i], now[i].weight, was[m], initial)
                        else IsWeight(was[i], now[i].weight, was[g], 256)
  }

  lemma NearTimes(n: real, x: real, l: real, t: real, u: real)
    requires x - 1.0 < n < x + 1.0 && l > 0.0 && t == n * l && u == x * l
    ensures -l < t - u < l
  {
    var d := n - x;
    assert t - u == d * l;
    assert (1.0 - d) * l > 0.0 && (d + 1.0) * l > 0.0;
  }

  lemma TotalNear(n: int, c: int, len: nat, w: int, lcm: nat, scale: real, k: real)
    requires len > 0 && c * len == w * lcm && k == scale * lcm as real
    requires c as real * scale - 1.0 < n as real < c as real * scale + 1.0
    ensures -(len as real) < (n * len) as real - k * w as real < len as real
  {
    var l := len as real;
    assert (n * len) as real == n as real * l;
    assert (c * len) as real == c as real * l && (w * lcm) as real == w as real * lcm as real;
    assert k * w as real == (c as real * scale) * l by {
      assert scale * (c as real * l) == scale * (w as real * lcm as real);
    }
    NearTimes(n as real, c as real * scale, l, (n * len) as real, k * w as real);
  }

  /** The weight of each endpoint of a cluster, such that the least of them is the initial weight. */
  function ScaledWeight(cl: Cluster, lcm: nat, gcd: nat, minFactor: real): real
    requires cl.length > 0 && gcd > 0
  {
    minFactor * (cl.weight * lcm) as real / (cl.length * gcd) as real
  }

  /** The new weight of each endpoint of a cluster. */
  function WeightOf(cl: Cluster, lcm: nat, gcd: nat, minFactor: real, factor: real): int
    requires cl.length > 0 && gcd > 0
  {
    Trimmed(ScaledWeight(cl, lcm, gcd, minFactor), factor, cl.weight > 0)
  }

  /** The quantities that the weights are computed from. */
  datatype Plan = Plan(lcm: nat, gcd: nat, min: int, max: int, initial: int, k: real, s: real, minFactor: real, factor: real)

  ghost predicate PlanOk(p: Plan)
  {
    && p.lcm > 0 && p.gcd > 0 && 0 < p.min <= p.max && p.initial >= 1
    && p.k * p.min as real == p.initial as real && p.s * p.max as real == 256.0
    && p.minFactor == p.k * p.gcd as real && p.factor * 256.0 == p.max as real * p.k
  }

  ghost function PlanScale(p: Plan): real
  {
    Scale(p.max as real, p.k, p.s)
  }

  ghost predicate ShareOk(p: Plan, cl: Cluster, c: int)
  {
    && cl.length > 0 && c * cl.length == cl.weight * p.lcm
    && (c > 0 <==> cl.weight > 0) && (c == 0 || p.min <= c <= p.max) && cl.weight >= 0
  }

  lemma PlanScalePositive(p: Plan)
    requires PlanOk(p)
    ensures PlanScale(p) > 0.0
  {
  }

  lemma WeightScaled(p: Plan, cl: Cluster, c: int)
    requires PlanOk(p) && ShareOk(p, cl, c)
    ensures ScaledWeight(cl, p.lcm, p.gcd, p.minFactor) == c as real * p.k
  {
    ScaledIs(p.minFactor, cl, p.lcm, p.gcd, c, p.k);
  }

  lemma PlanBounds(p: Plan, cl: Cluster, c: int)
    requires PlanOk(p) && ShareOk(p, cl, c)
    ensures 0.0 <= c as real * PlanScale(p) <= 256.0 && (c > 0 ==> c as real * p.k >= 1.0)
  {
    ScaleBounds(p.min as real, p.max as real, p.initial as real, p.k, p.s, c as real);
  }

  lemma PlanReduced(p: Plan, c: int, weight: real)
    requires PlanOk(p) && weight == c as real * p.k
    ensures p.factor > 1.0 ==> weight / p.factor == c as real * PlanScale(p)
    ensures p.factor <= 1.0 ==> weight == c as real * PlanScale(p)
  {
    ScaledOrReduced(weight, p.factor, c as real, p.max as real, p.k, p.s);
  }

  lemma WeightTrimmed(p: Plan, cl: Cluster, c: int, weight: real, positive: bool)
    requires PlanOk(p) && ShareOk(p, cl, c) && weight == c as real * p.k && positive == (c > 0)
    ensures Trimmed(weight, p.factor, positive) == Rounded(c as real * PlanScale(p), positive)
  {
    hide PlanOk, ShareOk, PlanScale, Trimmed, Rounded;
    PlanBounds(p, cl, c);
    PlanReduced(p, c, weight);
    TrimmedIs(weight, p.factor, positive, c as real * PlanScale(p));
  }

  lemma WeightIs(p: Plan, cl: Cluster, c: int)
    requires PlanOk(p) && ShareOk(p, cl, c)
    requires cl.length > 0 && p.gcd > 0 && (c > 0 <==> cl.weight > 0)
    ensures WeightOf(cl, p.lcm, p.gcd, p.minFactor, p.factor) == Rounded(c as real * PlanScale(p), cl.weight > 0)
  {
    hide PlanOk, ShareOk, PlanScale, Trimmed, Rounded, ScaledWeight;
    WeightScaled(p, cl, c);
    WeightTrimmed(p, cl, c, ScaledWeight(cl, p.lcm, p.gcd, p.minFactor), cl.weight > 0);
  }

  lemma WeightNear(p: Plan, cl: Cluster, c: int, x: real)
    requires PlanOk(p) && ShareOk(p, cl, c) && x == c as real * PlanScale(p)
    ensures var n := Rounded(x, cl.weight > 0);
            0 <= n <= 256 && (n == 0 <==> cl.weight == 0) && x - 1.0 < n as real < x + 1.0
  {
    PlanBounds(p, cl, c);
    PlanScalePositive(p);
    RoundedNear(c, PlanScale(p));
  }

  lemma WeightGood(p: Plan, cl: Cluster, c: int, x: real, k: real)
    requires PlanOk(p) && ShareOk(p, cl, c) && x == c as real * PlanScale(p) && k == PlanScale(p) * p.lcm as real
    requires cl.length > 0 && c * cl.length == cl.weight * p.lcm
    ensures GoodWeight(cl, Rounded(x, cl.weight > 0), k)
  {
    hide PlanOk, ShareOk, PlanScale, Rounded;
    WeightNear(p, cl, c, x);
    TotalNear(Rounded(x, cl.weight > 0), c, cl.length, cl.weight, p.lcm, PlanScale(p), k);
  }

  lemma WeightOrder(p: Plan, cl1: Cluster, c1: int, x1: real, cl2: Cluster, c2: int, x2: real)
    requires PlanOk(p) && ShareOk(p, cl1, c1) && ShareOk(p, cl2, c2)
    requires x1 == c1 as real * PlanScale(p) && x2 == c2 as real * PlanScale(p)
    requires (c1 > 0 <==> cl1.weight > 0) && (c2 > 0 <==> cl2.weight > 0)
    ensures OrderKept(cl1, Rounded(x1, cl1.weight > 0), cl2, Rounded(x2, cl2.weight > 0))
  {
    hide PlanOk, ShareOk, PlanScale, Rounded;
    PlanScalePositive(p);
    RoundedOrder(c1, x1, cl1.weight > 0, c2, x2, cl2.weight > 0, PlanScale(p));
    if cl1.weight * cl2.length <= cl2.weight * cl1.length {
      SharesOrdered(p, cl1, c1, cl2, c2);
    }
  }

  lemma RoundedOrder(c1: int, x1: real, positive1: bool, c2: int, x2: real, positive2: bool, scale: real)
    requires x1 == c1 as real * scale && x2 == c2 as real * scale && scale > 0.0
    requires positive1 == (c1 > 0) && positive2 == (c2 > 0)
    ensures 0 <= c1 <= c2 ==> Rounded(x1, positive1) <= Rounded(x2, positive2)
  {
  }

  lemma SameSign(p: int, a: int, q: int, b: int)
    requires a > 0 && b > 0 && p * a == q * b
    ensures p <= 0 <==> q <= 0
  {
  }

  /** Shares compare as the weights per endpoint. */
  lemma CrossShares(x: int, cl: Cluster, c: int, y: int, ref: Cluster, r: int, lcm: nat)
    requires cl.length > 0 && ref.length > 0 && lcm > 0
    requires c * cl.length == cl.weight * lcm && r * ref.length == ref.weight * lcm
    ensures x * r <= y * c <==> x * (ref.weight * cl.length) <= y * (cl.weight * ref.length)
  {
    var p, q := x * r - y * c, x * (ref.weight * cl.length) - y * (cl.weight * ref.length);
    var a := cl.length * ref.length;
    assert (x * r) * a == x * (r * ref.length) * cl.length == x * (ref.weight * cl.length) * lcm;
    assert (y * c) * a == y * (c * cl.length) * ref.length == y * (cl.weight * ref.length) * lcm;
    assert a > 0;
    SameSign(p, a, q, lcm);
  }

  lemma SharesOrdered(p: Plan, cl1: Cluster, c1: int, cl2: Cluster, c2: int)
    requires PlanOk(p) && ShareOk(p, cl1, c1) && ShareOk(p, cl2, c2)
    requires cl1.weight * cl2.length <= cl2.weight * cl1.length
    ensures 0 <= c1 <= c2
  {
    CrossShares(1, cl2, c2, 1, cl1, c1, p.lcm);
  }

  /** The weight of the endpoints of a cluster, by a plan. */
  function Planned(p: Plan, cl: Cluster): int
    requires cl.length > 0 && p.gcd > 0
  {
    WeightOf(cl, p.lcm, p.gcd, p.minFactor, p.factor)
  }

  ghost function PlanTotal(p: Plan): real
  {
    PlanScale(p) * p.lcm as real
  }

  lemma ShareFacts(p: Plan, cl: Cluster, c: int)
    requires PlanOk(p) && ShareOk(p, cl, c)
    ensures cl.length > 0 && p.gcd > 0 && (c > 0 <==> cl.weight > 0) && c * cl.length == cl.weight * p.lcm && cl.weight >= 0
  {
  }

  lemma PlannedGood(p: Plan, cl: Cluster, c: int)
    requires PlanOk(p) && ShareOk(p, cl, c) && cl.length > 0 && p.gcd > 0
    ensures GoodWeight(cl, Planned(p, cl), PlanTotal(p))
  {
    hide PlanOk, ShareOk, PlanScale, Rounded, WeightOf, GoodWeight;
    ShareFacts(p, cl, c);
    WeightIs(p, cl, c);
    WeightGood(p, cl, c, c as real * PlanScale(p), PlanTotal(p));
  }

  lemma PlannedOrder(p: Plan, cl1: Cluster, c1: int, cl2: Cluster, c2: int)
    requires PlanOk(p) && ShareOk(p, cl1, c1) && ShareOk(p, cl2, c2) && cl1.length > 0 && cl2.length > 0 && p.gcd > 0
    ensures OrderKept(cl1, Planned(p, cl1), cl2, Planned(p, cl2))
  {
    hide PlanOk, ShareOk, PlanScale, Rounded, WeightOf, OrderKept;
    ShareFacts(p, cl1, c1);
    ShareFacts(p, cl2, c2);
    WeightIs(p, cl1, c1);
    WeightIs(p, cl2, c2);
    WeightOrder(p, cl1, c1, c1 as real * PlanScale(p), cl2, c2, c2 as real * PlanScale(p));
  }

  lemma PlanTotalPositive(p: Plan)
    requires PlanOk(p) && p.lcm > 0
    ensures PlanTotal(p) > 0.0
  {
  }

  /** Every cluster with endpoints has a share that fits the plan. */
  ghost predicate SharesOk(p: Plan, cls: seq<Cluster>)
  {
    forall i :: 0 <= i < |cls| && cls[i].length > 0 ==> ShareOk(p, cls[i], Share(cls[i], p.lcm))
  }

  lemma PlannedRebalanced(p: Plan, was: seq<Cluster>, now: seq<Cluster>)
    requires PlanOk(p) && SharesOk(p, was) && |was| == |now| && p.gcd > 0 && p.lcm > 0
    requires forall i :: 0 <= i < |was| && was[i].length > 0 ==> now[i].weight == Planned(p, was[i])
    ensures Rebalanced(was, now)
  {
    hide PlanOk, ShareOk, Planned, PlanTotal, GoodWeight, OrderKept, Share;
    PlanTotalPositive(p);
    forall i | 0 <= i < |was| && was[i].length > 0 ensures GoodWeight(was[i], now[i].weight, PlanTotal(p)) {
      PlannedGood(p, was[i], Share(was[i], p.lcm));
    }
    assert Proportional(was, now, PlanTotal(p));
    forall i, j | 0 <= i < |was| && 0 <= j < |was| && was[i].length > 0 && was[j].length > 0
      ensures OrderKept(was[i], now[i].weight, was[j], now[j].weight)
    {
      PlannedOrder(p, was[i], Share(was[i], p.lcm), was[j], Share(was[j], p.lcm));
    }
  }

  lemma RealSign(d: real, r: real)
    requires r > 0.0
    ensures (d >= 0.0 <==> d * r >= 0.0) && (d <= 0.0 <==> d * r <= 0.0)
  {
  }

  lemma CrossReal(c: real, t: real, r: real, top: real, x: real)
    requires r > 0.0 && t * r == top
    ensures (x <= c * t <==> x * r <= top * c) && (c * t <= x <==> top * c <= x * r)
  {
    var d := c * t - x;
    assert d * r == c * (t * r) - x * r == top * c - x * r;
    RealSign(d, r);
  }

  lemma CrossFloor(c: int, t: real, r: int, top: int, x: int)
    requires r > 0 && t * r as real == top as real
    ensures x as real <= c as real * t <==> x * r <= top * c
    ensures c as real * t <= x as real <==> top * c <= x * r
  {
    RealProduct(x, r);
    RealProduct(top, c);
    CrossReal(c as real, t, r as real, top as real, x as real);
  }

  lemma RealProduct(a: int, b: int)
    ensures (a * b) as real == a as real * b as real
  {
  }

  ghost predicate IsShare(cl: Cluster, c: int, lcm: nat)
  {
    cl.length > 0 && cl.weight >= 0 && lcm > 0 && c * cl.length == cl.weight * lcm
  }

  /** The share r of the cluster is multiplied by t and becomes `top`. */
  ghost predicate Becomes(ref: Cluster, r: int, lcm: nat, t: real, top: int)
  {
    IsShare(ref, r, lcm) && r > 0 && ref.weight > 0 && top > 0 && t * r as real == top as real
  }

  /** A share that is multiplied such that the share r becomes `top` is the weight in that proportion. */
  lemma RoundedIsWeight(cl: Cluster, c: int, ref: Cluster, r: int, lcm: nat, t: real, top: int, x: real)
    requires IsShare(cl, c, lcm) && Becomes(ref, r, lcm, t, top) && x == c as real * t
    ensures IsWeight(cl, Rounded(x, cl.weight > 0), ref, top)
  {
    var n := x.Floor;
    var a, b := top * (cl.weight * ref.length), ref.weight * cl.length;
    CrossFloor(c, t, r, top, n);
    CrossFloor(c, t, r, top, n + 1);
    CrossShares(n, cl, c, top, ref, r, lcm);
    CrossShares(n + 1, cl, c, top, ref, r, lcm);
    assert n * b <= a < (n + 1) * b;
    FloorIsZero(n, a, b, cl.weight, top * ref.length);
  }

  lemma FloorIsZero(n: int, a: int, b: int, w: int, u: int)
    requires n * b <= a < (n + 1) * b && b > 0 && w >= 0 && u > 0 && a == w * u
    ensures n == 0 && w > 0 <==> 0 < a < b
  {
    assert a > 0 <==> w > 0 by {
      SameSign(w, u, a, 1);
    }
    if n >= 1 {
      Monotone(1, n, b);
    } else if n < 0 {
      Monotone(n + 1, 0, b);
    }
  }

  lemma PlanBecomes(p: Plan, least: Cluster, greatest: Cluster)
    requires PlanOk(p) && ShareOk(p, least, p.min) && ShareOk(p, greatest, p.max)
    ensures Becomes(least, p.min, p.lcm, p.k, p.initial) && Becomes(greatest, p.max, p.lcm, p.s, 256)
  {
  }

  lemma PlanShare(p: Plan, cl: Cluster, c: int)
    requires PlanOk(p) && ShareOk(p, cl, c)
    ensures IsShare(cl, c, p.lcm) && cl.length > 0 && p.gcd > 0 && (c > 0 <==> cl.weight > 0)
  {
  }

  /** The greatest share becomes more than 256 exactly when the raw weights say so. */
  lemma ScaleChosen(p: Plan, least: Cluster, greatest: Cluster)
    requires Becomes(least, p.min, p.lcm, p.k, p.initial) && IsShare(greatest, p.max, p.lcm)
    ensures PlanScale(p) == if Fits(least, greatest, p.initial) then p.k else p.s
  {
    hide Scale;
    CrossShares(p.initial, least, p.min, 256, greatest, p.max, p.lcm);
    ScaleIs(p.min, p.max, p.initial, p.k, p.s);
  }

  lemma ScaleIs(min: int, max: int, initial: int, k: real, s: real)
    requires min > 0 && k * min as real == initial as real
    ensures Scale(max as real, k, s) == if initial * max <= 256 * min then k else s
  {
    CrossFloor(max, k, min, initial, 256);
  }

  lemma PlannedAnchored(p: Plan, cl: Cluster, c: int, least: Cluster, greatest: Cluster)
    requires PlanOk(p) && ShareOk(p, cl, c) && ShareOk(p, least, p.min) && ShareOk(p, greatest, p.max)
    requires cl.length > 0 && p.gcd > 0
    ensures if Fits(least, greatest, p.initial)
            then IsWeight(cl, Planned(p, cl), least, p.initial)
            else IsWeight(cl, Planned(p, cl), greatest, 256)
  {
    hide PlanOk, ShareOk, PlanScale, Rounded, WeightOf, IsWeight, Fits, IsShare, Becomes;
    PlanShare(p, cl, c);
    PlanShare(p, greatest, p.max);
    PlanBecomes(p, least, greatest);
    WeightIs(p, cl, c);
    ScaleChosen(p, least, greatest);
    var x := c as real * PlanScale(p);
    if Fits(least, greatest, p.initial) {
      RoundedIsWeight(cl, c, least, p.min, p.lcm, p.k, p.initial, x);
    } else {
      RoundedIsWeight(cl, c, greatest, p.max, p.lcm, p.s, 256, x);
    }
  }

  /** The least cluster has the least share, the greatest the greatest. */
  lemma ExtremeShares(p: Plan, cls: seq<Cluster>, m: int, g: int)
    requires PlanOk(p) && SharesOk(p, cls) && Bounds(cls, p.lcm, p.gcd, p.min, p.max) && IsLeast(cls, m) && IsGreatest(cls, g)
    ensures Share(cls[m], p.lcm) == p.min && Share(cls[g], p.lcm) == p.max
  {
    hide Share;
    var lo :| 0 <= lo < |cls| && Counts(cls[lo]) && Share(cls[lo], p.lcm) == p.min;
    var hi :| 0 <= hi < |cls| && Counts(cls[hi]) && Share(cls[hi], p.lcm) == p.max;
    SharesOrdered(p, cls[m], Share(cls[m], p.lcm), cls[lo], p.min);
    SharesOrdered(p, cls[hi], p.max, cls[g], Share(cls[g], p.lcm));
  }

  lemma AllAnchored(p: Plan, was: seq<Cluster>, now: seq<Cluster>)
    requires PlanOk(p) && SharesOk(p, was) && Bounds(was, p.lcm, p.gcd, p.min, p.max)
    requires |was| == |now| && p.gcd > 0 && p.lcm > 0
    requires forall i :: 0 <= i < |was| && was[i].length > 0 ==> now[i].weight == Planned(p, was[i])
    ensures Anchored(was, now, p.initial)
  {
    hide PlanOk, ShareOk, Planned, Share, IsWeight, Bounds;
    forall m, g, i | IsLeast(was, m) && IsGreatest(was, g) && 0 <= i < |was| && was[i].length > 0
      ensures if Fits(was[m], was[g], p.initial)
              then IsWeight(was[i], now[i].weight, was[m], p.initial)
              else IsWeight(was[i], now[i].weight, was[g], 256)
    {
      ExtremeShares(p, was, m, g);
      PlannedAnchored(p, was[i], Share(was[i], p.lcm), was[m], was[g]);
    }
  }

  /** The plan that the measures of the clusters make. */
  lemma MeasuredPlan(lcm: nat, gcd: nat, min: int, max: int, initial: int, minFactor: real, factor: real)
    returns (p: Plan)
    requires initial >= 1 && lcm > 0 && gcd > 0 && 0 < min <= max
    requires minFactor == (initial * gcd) as real / min as real
    requires factor == minFactor * max as real / (256 * gcd) as real
    ensures PlanOk(p) && p.lcm == lcm && p.gcd == gcd && p.min == min && p.max == max && p.initial == initial
    ensures p.minFactor == minFactor && p.factor == factor
  {
    var k, s := initial as real / min as real, 256.0 / max as real;
    Divided(initial as real, min as real, k);
    Divided(256.0, max as real, s);
    p := Plan(lcm, gcd, min, max, initial, k, s, minFactor, factor);
    MeasuredOk(p);
  }

  lemma Divided(a: real, b: real, k: real)
    requires b > 0.0 && k == a / b
    ensures k * b == a
  {
  }

  lemma MeasuredOk(p: Plan)
    requires p.lcm > 0 && p.gcd > 0 && 0 < p.min <= p.max && p.initial >= 1
    requires p.k * p.min as real == p.initial as real && p.s * p.max as real == 256.0
    requires p.minFactor == (p.initial * p.gcd) as real / p.min as real
    requires p.factor == p.minFactor * p.max as real / (256 * p.gcd) as real
    ensures PlanOk(p)
  {
    MinFactorIs(p.initial, p.gcd, p.min, p.k);
    FactorIs(p.minFactor, p.gcd, p.max, p.k);
  }

  lemma MeasuredShares(p: Plan, cls: seq<Cluster>)
    requires p.lcm > 0 && IsLcmOf(p.lcm, cls) && Bounds(cls, p.lcm, p.gcd, p.min, p.max)
    requires forall i :: 0 <= i < |cls| ==> cls[i].weight >= 0
    ensures SharesOk(p, cls)
  {
    hide Share;
    forall i | 0 <= i < |cls| && cls[i].length > 0 ensures ShareOk(p, cls[i], Share(cls[i], p.lcm)) {
      ShareExact(cls[i], p.lcm);
      assert Counts(cls[i]) ==> p.min <= Share(cls[i], p.lcm) <= p.max;
    }
  }

  /** Weights that are all zero are balanced. */
  lemma ZeroRebalanced(cls: seq<Cluster>)
    requires NoneCounts(cls) && forall i :: 0 <= i < |cls| ==> cls[i].weight >= 0
    ensures Rebalanced(cls, cls)
  {
    forall i | 0 <= i < |cls| && cls[i].length > 0 ensures cls[i].weight == 0 {
      assert !Counts(cls[i]);
    }
    assert Proportional(cls, cls, 1.0);
  }

  lemma NoneAnchored(was: seq<Cluster>, now: seq<Cluster>, initial: int)
    requires NoneCounts(was) && |was| == |now|
    ensures Anchored(was, now, initial)
  {
    assert forall m :: IsLeast(was, m) ==> Counts(was[m]);
  }

  /**
   * Overwrites the weight of the clusters with the weight of each of their endpoints. For a cluster without endpoints
   * the division by zero gives `undefined`.
   */
  method RebalanceWeight(cls: array<Cluster>, initial: int, undefined: int)
    requires forall i :: 0 <= i < cls.Length ==> cls[i].weight >= 0
    modifies cls
    ensures forall i :: 0 <= i < cls.Length ==> cls[i].length == old(cls[i].length)
    ensures initial >= 1 ==> Rebalanced(old(cls[..]), cls[..]) && Anchored(old(cls[..]), cls[..], initial)
    ensures NoneCounts(old(cls[..])) ==> cls[..] == old(cls[..])
  {
    hide Rebalanced, Anchored, PlanOk, SharesOk, Planned, WeightOf;
    ghost var was := cls[..];
    var lcm := LcmOfLengths(cls[..]);
    if lcm == 0 {
      ZeroRebalanced(was);
      NoneAnchored(was, cls[..], initial);
      return;
    }
    var gcd, min, max := MeasureShares(cls[..], lcm);
    if gcd == 0 {
      ZeroRebalanced(was);
      NoneAnchored(was, cls[..], initial);
      return;
    }
    WriteWeights(cls, lcm, gcd, min, max, initial, undefined);
  }

  method WriteWeights(cls: array<Cluster>, lcm: nat, gcd: nat, min: int, max: int, initial: int, undefined: int)
    requires lcm > 0 && IsLcmOf(lcm, cls[..]) && gcd > 0 && Bounds(cls[..], lcm, gcd, min, max)
    requires forall i :: 0 <= i < cls.Length ==> cls[i].weight >= 0
    modifies cls
    ensures forall i :: 0 <= i < cls.Length ==> cls[i].length == old(cls[i].length)
    ensures initial >= 1 ==> Rebalanced(old(cls[..]), cls[..]) && Anchored(old(cls[..]), cls[..], initial)
  {
    hide Rebalanced, Anchored, PlanOk, SharesOk, ShareOk, WeightOf, IsLcmOf;
    ghost var was := cls[..];
    var minFactor := (initial * gcd) as real / min as real;
    var factor := minFactor * max as real / (256 * gcd) as real;
    WriteAll(cls, lcm, gcd, minFactor, factor, undefined);
    if initial >= 1 {
      var p := MeasuredPlan(lcm, gcd, min, max, initial, minFactor, factor);
      MeasuredShares(p, was);
      PlannedRebalanced(p, was, cls[..]);
      AllAnchored(p, was, cls[..]);
    }
  }

  method WriteAll(cls: array<Cluster>, lcm: nat, gcd: nat, minFactor: real, factor: real, undefined: int)
    requires gcd > 0
    modifies cls
    ensures forall i :: 0 <= i < cls.Length ==> cls[i].length == old(cls[i].length)
    ensures forall i :: 0 <= i < cls.Length && old(cls[i]).length > 0 ==>
                          cls[i].weight == WeightOf(old(cls[i]), lcm, gcd, minFactor, factor)
  {
    hide WeightOf;
    for i := 0 to cls.Length
      invariant forall j :: 0 <= j < cls.Length ==> cls[j].length == old(cls[j].length)
      invariant forall j :: i <= j < cls.Length ==> cls[j] == old(cls[j])
      invariant forall j :: 0 <= j < i && old(cls[j]).length > 0 ==>
                              cls[j].weight == WeightOf(old(cls[j]), lcm, gcd, minFactor, factor)
    {
      var cl := cls[i];
      cls[i] := cl.(weight := if cl.length > 0 then WeightOf(cl, lcm, gcd, minFactor, factor) else undefined);
    }
  }
}
