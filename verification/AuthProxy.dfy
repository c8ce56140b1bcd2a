/** The ports of the auth proxy: one per external auth backend, from a fixed range. */
module AuthProxy {
  import opened Model
  import opened Ordering
  import opened Decimal

  datatype BackendID = BackendID(namespace: string, name: string, port: string)

  datatype Bind = Bind(authBackendName: string, backend: BackendID, localPort: nat, socketID: nat)

  function BackendString(b: BackendID): string
  {
    b.namespace + "_" + b.name + "_" + b.port
  }

  function AuthName(port: nat): string
  {
    "_auth_" + Digits(port)
  }

  function NewBind(backend: BackendID, port: nat): Bind
  {
    Bind(AuthName(port), backend, port, 10000 + port)
  }

  predicate PortLe(a: Bind, b: Bind)
  {
    a.localPort <= b.localPort
  }

  ghost predicate HasPort(binds: seq<Bind>, p: nat)
  {
    exists i :: 0 <= i < |binds| && binds[i].localPort == p
  }

  ghost predicate HasBackend(binds: seq<Bind>, b: BackendID)
  {
    exists i :: 0 <= i < |binds| && binds[i].backend == b
  }

  /** Name and socket id are those of the port. */
  predicate IsNamed(b: Bind)
  {
    b.authBackendName == "_auth_" + Digits(b.localPort) && b.socketID == b.localPort + 10000
  }

  /** Strictly sorted by port, ports in range, and each backend bound once, under the name of its port. */
  ghost predicate Valid(binds: seq<Bind>, start: nat, end: nat)
  {
    && (forall i, j :: 0 <= i < j < |binds| ==> binds[i].localPort < binds[j].localPort)
    && (forall i, j :: 0 <= i < j < |binds| ==> binds[i].backend != binds[j].backend)
    && (forall i :: 0 <= i < |binds| ==> start <= binds[i].localPort <= end)
    && (forall i :: 0 <= i < |binds| ==> IsNamed(binds[i]))
  }

  /** Different backends have different names. */
  lemma NamesDistinct(binds: seq<Bind>, start: nat, end: nat, i: nat, j: nat)
    requires Valid(binds, start, end) && i < j < |binds|
    ensures binds[i].authBackendName != binds[j].authBackendName
  {
    var p, q := binds[i].localPort, binds[j].localPort;
    assert Digits(p) == AuthName(p)[6..] && Digits(q) == AuthName(q)[6..];
    if AuthName(p) == AuthName(q) {
      DigitsInjective(p, q);
    }
  }

  lemma SortedWithNew(binds: seq<Bind>, start: nat, end: nat, bind: Bind, r: seq<Bind>)
    requires Valid(binds, start, end) && start <= bind.localPort <= end && IsNamed(bind)
    requires !HasPort(binds, bind.localPort) && !HasBackend(binds, bind.backend)
    requires multiset(r) == multiset(binds + [bind]) && SortedBy(r, PortLe)
    ensures Valid(r, start, end)
  {
    var s := binds + [bind];
    forall i, j | 0 <= i < j < |r| ensures r[i].localPort < r[j].localPort && r[i].backend != r[j].backend {
      var k, l := TwoOf(s, r, i, j);
      assert PortLe(r[i], r[j]);
      assert s[k].localPort != s[l].localPort && s[k].backend != s[l].backend;
    }
    forall i | 0 <= i < |r| ensures start <= r[i].localPort <= end && IsNamed(r[i]) {
      assert r[i] in multiset(s);
    }
  }

  // ---------------------------------------------------------------- removals

  /** The binds that satisfy `keep`, in their order. */
  function Kept(binds: seq<Bind>, keep: Bind -> bool): seq<Bind>
  {
    if binds == [] then []
    else
      var n := |binds| - 1;
      Kept(binds[..n], keep) + (if keep(binds[n]) then [binds[n]] else [])
  }

  function NameIn(used: set<string>): Bind -> bool
  {
    (b: Bind) => b.authBackendName in used
  }

  function NotTargeted(backends: seq<string>): Bind -> bool
  {
    (b: Bind) => BackendString(b.backend) !in backends
  }

  /** Exactly the binds that satisfy `keep` are kept. */
  lemma {:induction false} KeptMeans(binds: seq<Bind>, keep: Bind -> bool, b: Bind)
    ensures b in Kept(binds, keep) <==> b in binds && keep(b)
  {
    if binds != [] {
      var n := |binds| - 1;
      KeptMeans(binds[..n], keep, b);
      assert binds == binds[..n] + [binds[n]];
    }
  }

  lemma {:induction false} KeptValid(binds: seq<Bind>, keep: Bind -> bool, start: nat, end: nat)
    requires Valid(binds, start, end)
    ensures Valid(Kept(binds, keep), start, end)
  {
    if binds != [] {
      var n := |binds| - 1;
      var r := Kept(binds[..n], keep);
      KeptValid(binds[..n], keep, start, end);
      forall i | 0 <= i < |r| ensures r[i].localPort < binds[n].localPort && r[i].backend != binds[n].backend {
        KeptMeans(binds[..n], keep, r[i]);
        assert r[i] in binds[..n];
      }
      ValidAppended(r, binds[n], start, end);
    }
  }

  lemma ValidAppended(binds: seq<Bind>, b: Bind, start: nat, end: nat)
    requires Valid(binds, start, end) && start <= b.localPort <= end && IsNamed(b)
    requires forall i :: 0 <= i < |binds| ==> binds[i].localPort < b.localPort && binds[i].backend != b.backend
    ensures Valid(binds + [b], start, end)
  {
  }

  class Frontend {
    const rangeStart: nat
    const rangeEnd: nat
    var bindList: seq<Bind>
    var changed: bool

    constructor (rangeStart: nat, rangeEnd: nat)
      ensures this.rangeStart == rangeStart && this.rangeEnd == rangeEnd && bindList == [] && !changed
      ensures Valid(bindList, rangeStart, rangeEnd)
    {
      this.rangeStart, this.rangeEnd, bindList, changed := rangeStart, rangeEnd, [], false;
    }

    /** The smallest free port, unless the backend is bound already. */
    method FindBind(backend: BackendID) returns (bound: Option<Bind>, freePort: nat)
      requires Valid(bindList, rangeStart, rangeEnd)
      ensures bound.Some? <==> HasBackend(bindList, backend)
      ensures bound.Some? ==> bound.value in bindList && bound.value.backend == backend
      ensures bound.None? ==> freePort >= rangeStart && !HasPort(bindList, freePort)
      ensures bound.None? ==> forall p :: rangeStart <= p < freePort ==> HasPort(bindList, p)
    {
      bound, freePort := None, rangeStart;
      for i := 0 to |bindList|
        invariant rangeStart <= freePort
        invariant forall j :: 0 <= j < i ==> bindList[j].backend != backend && bindList[j].localPort != freePort
        invariant forall p :: rangeStart <= p < freePort ==> HasPort(bindList[..i], p)
        invariant freePort > rangeStart ==> i > 0 && freePort <= bindList[i - 1].localPort + 1
      {
        ghost var seen := freePort;
        if bindList[i].backend == backend {
          return Some(bindList[i]), freePort;
        }
        if freePort == bindList[i].localPort {
          freePort := freePort + 1;
        }
        ghost var before, now := bindList[..i], bindList[..i + 1];
        forall p | rangeStart <= p < freePort ensures HasPort(now, p) {
          if p < seen {
            assert HasPort(before, p);
            var j :| 0 <= j < i && before[j].localPort == p;
            assert now[j].localPort == p;
          } else {
            assert now[i].localPort == p;
          }
        }
      }
      assert bindList[..|bindList|] == bindList;
    }

    /**
     * The name of the bind of a backend. A backend that is bound keeps its port, any other gets the smallest free
     * one, and there is none exactly when all the ports of the range are taken.
     */
    method AcquireAuthBackendName(backend: BackendID) returns (name: Option<string>)
      requires Valid(bindList, rangeStart, rangeEnd)
      modifies this`bindList, this`changed
      ensures Valid(bindList, rangeStart, rangeEnd)
      ensures name.None? <==> !HasBackend(old(bindList), backend)
                              && forall p :: rangeStart <= p <= rangeEnd ==> HasPort(old(bindList), p)
      ensures HasBackend(old(bindList), backend) || name.None? ==> bindList == old(bindList) && changed == old(changed)
      ensures !HasBackend(old(bindList), backend) && name.Some? ==> changed
      ensures !HasBackend(old(bindList), backend) && name.Some? ==>
                exists b: Bind :: b.backend == backend && SmallestFree(old(bindList), rangeStart, b.localPort)
                                  && multiset(bindList) == multiset(old(bindList) + [b])
      ensures name.Some? ==> exists i :: 0 <= i < |bindList| && bindList[i].backend == backend
                                         && bindList[i].authBackendName == name.value
    {
      var bound, freePort := FindBind(backend);
      if bound.Some? {
        return Some(bound.value.authBackendName);
      }
      if freePort > rangeEnd {
        return None;
      }
      assert SmallestFree(bindList, rangeStart, freePort);
      var bind := NewBind(backend, freePort);
      var r := Sort(bindList + [bind], PortLe);
      SortSorted(bindList + [bind], PortLe);
      SortedWithNew(bindList, rangeStart, rangeEnd, bind, r);
      assert bind in multiset(r);
      bindList := r;
      changed := true;
      return Some(bind.authBackendName);
    }

    /** Keeps the binds that satisfy `keep`, moving them down in the list. */
    method Compact(keep: Bind -> bool)
      modifies this`bindList
      ensures bindList == Kept(old(bindList), keep)
    {
      var binds, i := bindList, 0;
      for k := 0 to |bindList|
        invariant bindList == old(bindList) && |binds| == |bindList|
        invariant i <= k && binds[..i] == Kept(bindList[..k], keep)
        invariant forall m :: k <= m < |bindList| ==> binds[m] == bindList[m]
      {
        assert bindList[..k + 1][..k] == bindList[..k];
        if keep(binds[k]) {
          ghost var before := binds;
          binds := binds[i := binds[k]];
          assert binds[..i + 1] == before[..i] + [bindList[k]];
          i := i + 1;
        }
      }
      assert bindList[..|bindList|] == bindList;
      bindList := binds[..i];
    }

    method RemoveAuthBackendExcept(used: set<string>)
      requires Valid(bindList, rangeStart, rangeEnd)
      modifies this`bindList
      ensures Valid(bindList, rangeStart, rangeEnd)
      ensures bindList == Kept(old(bindList), NameIn(used))
      ensures forall b :: b in bindList <==> b in old(bindList) && b.authBackendName in used
    {
      forall b ensures b in Kept(bindList, NameIn(used)) <==> b in bindList && b.authBackendName in used {
        KeptMeans(bindList, NameIn(used), b);
      }
      KeptValid(bindList, NameIn(used), rangeStart, rangeEnd);
      Compact(NameIn(used));
    }

    method RemoveAuthBackendByTarget(backends: seq<string>)
      requires Valid(bindList, rangeStart, rangeEnd)
      modifies this`bindList
      ensures Valid(bindList, rangeStart, rangeEnd)
      ensures bindList == Kept(old(bindList), NotTargeted(backends))
      ensures forall b :: b in bindList <==>
                            b in old(bindList) && b.backend.namespace + "_" + b.backend.name + "_" + b.backend.port !in backends
    {
      forall b ensures b in Kept(bindList, NotTargeted(backends)) <==>
        b in bindList && b.backend.namespace + "_" + b.backend.name + "_" + b.backend.port !in backends
      {
        KeptMeans(bindList, NotTargeted(backends), b);
      }
      KeptValid(bindList, NotTargeted(backends), rangeStart, rangeEnd);
      Compact(NotTargeted(backends));
    }

    /** What an operation does to the binds; an acquired name takes the smallest port that is free, if there is one. */
    ghost predicate Follows(op: Op, was: seq<Bind>, now: seq<Bind>)
    {
      match op
      case Acquire(backend) =>
        if HasBackend(was, backend) || (forall p :: rangeStart <= p <= rangeEnd ==> HasPort(was, p)) then now == was
        else exists b: Bind :: b.backend == backend && SmallestFree(was, rangeStart, b.localPort)
                               && multiset(now) == multiset(was + [b])
      case RemoveExcept(used) => forall b :: b in now <==> b in was && b.authBackendName in used
      case RemoveByTarget(backends) =>
        forall b :: b in now <==> b in was && b.backend.namespace + "_" + b.backend.name + "_" + b.backend.port !in backends
    }

    method Apply(op: Op)
      requires Valid(bindList, rangeStart, rangeEnd)
      modifies this`bindList, this`changed
      ensures Valid(bindList, rangeStart, rangeEnd) && Follows(op, old(bindList), bindList)
    {
      hide Valid;
      match op
      case Acquire(backend) => var name := AcquireAuthBackendName(backend);
      case RemoveExcept(used) => RemoveAuthBackendExcept(used);
      case RemoveByTarget(backends) => RemoveAuthBackendByTarget(backends);
    }

    /** Over any run the binds have their ports, names and sockets, and each operation did what it says. */
    method Run(ops: seq<Op>) returns (ghost trace: seq<seq<Bind>>)
      requires Valid(bindList, rangeStart, rangeEnd)
      modifies this`bindList, this`changed
      ensures |trace| == |ops| + 1 && trace[0] == old(bindList) && trace[|ops|] == bindList
      ensures forall i :: 0 <= i <= |ops| ==> Valid(trace[i], rangeStart, rangeEnd)
      ensures forall i :: 0 <= i < |ops| ==> Follows(ops[i], trace[i], trace[i + 1])
    {
      hide Valid, Follows;
      trace := [bindList];
      for i := 0 to |ops|
        invariant |trace| == i + 1 && trace[0] == old(bindList) && trace[i] == bindList
        invariant forall k :: 0 <= k <= i ==> Valid(trace[k], rangeStart, rangeEnd)
        invariant forall k :: 0 <= k < i ==> Follows(ops[k], trace[k], trace[k + 1])
      {
        Apply(ops[i]);
        trace := trace + [bindList];
      }
    }
  }

  datatype Op = Acquire(backend: BackendID) | RemoveExcept(used: set<string>) | RemoveByTarget(backends: seq<string>)

  ghost predicate SmallestFree(binds: seq<Bind>, start: nat, p: nat)
  {
    start <= p && !HasPort(binds, p) && forall q :: start <= q < p ==> HasPort(binds, q)
  }
}
