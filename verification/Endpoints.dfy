/** A backend and its endpoints: each endpoint is a server slot of the HAProxy backend. */
module Endpoints {
  import opened Model
  import opened Ordering
  import opened Decimal

  const EMPTY_IP := "127.0.0.1"
  const EMPTY_PORT := 1023

  datatype Endpoint = Endpoint(
    enabled: bool,
    useLabel: string,
    ip: string,
    name: string,
    port: nat,
    sourceIP: string,
    target: string,
    targetRef: string,
    weight: int,
    cookieValue: string,
    puid: int)

  datatype EpNaming = Sequence | IPPort | TargetRef

  datatype Dynamic = Dynamic(dynUpdate: bool, minFreeSlots: int, blockSize: int)

  /** Everything configured in a backend but its endpoints; `rest` stands for what the model does not read. */
  datatype Config = Config(epNaming: EpNaming, initialWeight: int, cookiePreserve: bool, resolver: string, rest: string)

  function TargetOf(ip: string, port: nat): string
  {
    ip + ":" + Digits(port)
  }

  predicate IsEmpty(ep: Endpoint)
  {
    ep.ip == EMPTY_IP
  }

  /** What follows the last slash. */
  function LastSegment(s: string): string
  {
    if s == [] then []
    else if s[|s| - 1] == '/' then []
    else LastSegment(s[..|s| - 1]) + [s[|s| - 1]]
  }

  /** The last part of a name with slashes. */
  ghost predicate IsLastPart(s: string, r: string)
  {
    |r| <= |s| && s[|s| - |r|..] == r && '/' !in r && (|r| < |s| ==> s[|s| - |r| - 1] == '/')
  }

  lemma {:induction false} LastSegmentIs(s: string)
    ensures IsLastPart(s, LastSegment(s))
  {
    if s != [] && s[|s| - 1] != '/' {
      var front, c := s[..|s| - 1], s[|s| - 1];
      LastSegmentIs(front);
      LastPartNext(front, c, LastSegment(front));
      assert s == front + [c];
    }
  }

  lemma LastPartNext(s: string, c: char, r: string)
    requires IsLastPart(s, r) && c != '/'
    ensures IsLastPart(s + [c], r + [c])
  {
    assert (s + [c])[|s| - |r|..] == s[|s| - |r|..] + [c];
  }

  /** The name that a policy gives to the slot after `count` others. */
  ghost predicate IsSlotName(naming: EpNaming, count: nat, ip: string, port: nat, targetRef: string, name: string)
  {
    match naming
    case Sequence => name == SrvName(count + 1)
    case IPPort => name == if ip == "127.0.0.1" then SrvName(count + 1) else ip + ":" + Digits(port)
    case TargetRef => IsLastPart(targetRef, name) || (name == SrvName(count + 1) && IsLastPart(targetRef, ""))
  }

  lemma SlotNameIs(naming: EpNaming, count: nat, ip: string, port: nat, targetRef: string)
    ensures IsSlotName(naming, count, ip, port, targetRef, SlotName(naming, count, ip, port, targetRef))
    ensures SlotName(naming, count, ip, port, targetRef) != ""
  {
    hide SrvName, IsLastPart, LastSegment, Digits;
    LastSegmentIs(targetRef);
    SrvNameIs(count + 1);
  }

  /** Different addresses have different targets. */
  lemma TargetInjective(ip: string, port: nat, ip': string, port': nat)
    requires TargetOf(ip, port) == TargetOf(ip', port')
    ensures ip == ip' && port == port'
  {
    var s, d, d' := TargetOf(ip, port), Digits(port), Digits(port');
    DigitsAreDecimal(port);
    DigitsAreDecimal(port');
    assert s[|ip|] == ':' && s[|ip'|] == ':';
    assert forall k :: |ip| < k < |s| ==> s[k] != ':';
    assert forall k :: |ip'| < k < |s| ==> s[k] != ':';
    assert |ip| == |ip'|;
    assert ip == s[..|ip|] == ip';
    assert d == s[|ip| + 1..] == d';
    DigitsInjective(port, port');
  }

  /** The server name of a slot added to a backend that has `count` of them. */
  function SlotName(naming: EpNaming, count: nat, ip: string, port: nat, targetRef: string): string
  {
    var name := match naming
      case TargetRef => LastSegment(targetRef)
      case IPPort => if ip != EMPTY_IP then TargetOf(ip, port) else ""
      case Sequence => "";
    if name == "" then SrvName(count + 1) else name
  }

  function NewEndpoint(config: Config, count: nat, ip: string, port: nat, targetRef: string): Endpoint
  {
    Endpoint(true, "", ip, SlotName(config.epNaming, count, ip, port, targetRef), port, "", TargetOf(ip, port), targetRef,
             config.initialWeight, "", 0)
  }

  function EmptySlot(config: Config, count: nat): Endpoint
  {
    var ep := NewEndpoint(config, count, EMPTY_IP, EMPTY_PORT, "");
    ep.(enabled := false, cookieValue := ep.name)
  }

  function NamesOf(eps: seq<Endpoint>): (r: seq<string>)
    ensures |r| == |eps|
  {
    seq(|eps|, i requires 0 <= i < |eps| => eps[i].name)
  }

  ghost predicate DistinctNames(eps: seq<Endpoint>)
  {
    forall i, j :: 0 <= i < j < |eps| ==> eps[i].name != eps[j].name
  }

  /** No two enabled endpoints have the same target. */
  ghost predicate DistinctTargets(eps: seq<Endpoint>)
  {
    forall i, j :: 0 <= i < j < |eps| && eps[i].enabled && eps[j].enabled ==> eps[i].target != eps[j].target
  }

  ghost predicate AllEnabled(eps: seq<Endpoint>)
  {
    forall i :: 0 <= i < |eps| ==> eps[i].enabled
  }

  /** No two endpoints, enabled or not, have the same target. */
  ghost predicate OneTargetEach(eps: seq<Endpoint>)
  {
    forall i, j :: 0 <= i < j < |eps| ==> eps[i].target != eps[j].target
  }

  /** Endpoints that are not enabled are empty slots. */
  ghost predicate DisabledEmpty(eps: seq<Endpoint>)
  {
    forall i :: 0 <= i < |eps| && !eps[i].enabled ==> eps[i].ip == EMPTY_IP && eps[i].port == EMPTY_PORT
  }

  /** `eps'` is `eps` and then empty slots, n in all. */
  ghost predicate PaddedTo(config: Config, eps: seq<Endpoint>, eps': seq<Endpoint>, n: nat)
  {
    && |eps| <= n == |eps'|
    && (forall i :: 0 <= i < |eps| ==> eps'[i] == eps[i])
    && (forall i :: |eps| <= i < n ==> eps'[i] == EmptySlot(config, i))
  }

  // ---------------------------------------------------------------- sequence naming

  function SrvNames(n: nat): (r: seq<string>)
    ensures |r| == n
  {
    seq(n, i requires 0 <= i < n => SrvName(i + 1))
  }

  /** The server names are srv001 to srvN, in some order. */
  ghost predicate Sequential(eps: seq<Endpoint>)
  {
    multiset(NamesOf(eps)) == multiset(SrvNames(|eps|))
  }

  lemma SequentialAppend(eps: seq<Endpoint>, ep: Endpoint)
    requires Sequential(eps) && ep.name == SrvName(|eps| + 1)
    ensures Sequential(eps + [ep])
  {
    assert NamesOf(eps + [ep]) == NamesOf(eps) + [ep.name];
    assert SrvNames(|eps| + 1) == SrvNames(|eps|) + [SrvName(|eps| + 1)];
  }

  lemma NameIsSrv(eps: seq<Endpoint>, i: nat) returns (k: nat)
    requires Sequential(eps) && i < |eps|
    ensures 1 <= k <= |eps| && eps[i].name == SrvName(k)
  {
    assert NamesOf(eps)[i] in multiset(NamesOf(eps));
    assert NamesOf(eps)[i] in SrvNames(|eps|);
    var j :| 0 <= j < |eps| && SrvNames(|eps|)[j] == NamesOf(eps)[i];
    k := j + 1;
  }

  /** The name of the next slot is not in use. */
  lemma NextNameIsFree(eps: seq<Endpoint>, i: nat)
    requires Sequential(eps) && i < |eps|
    ensures eps[i].name != SrvName(|eps| + 1)
  {
    var k := NameIsSrv(eps, i);
    if eps[i].name == SrvName(|eps| + 1) {
      SrvNameInjective(k, |eps| + 1);
    }
  }

  lemma {:induction false} SrvNamesDistinct(n: nat, x: string)
    ensures multiset(SrvNames(n))[x] <= 1
  {
    if n > 0 {
      SrvNamesDistinct(n - 1, x);
      assert SrvNames(n) == SrvNames(n - 1) + [SrvName(n)];
      if x == SrvName(n) && x in SrvNames(n - 1) {
        var j :| 0 <= j < n - 1 && SrvNames(n - 1)[j] == x;
        SrvNameInjective(j + 1, n);
      }
    }
  }

  /** Sequential names are pairwise different. */
  lemma SequentialDistinct(eps: seq<Endpoint>)
    requires Sequential(eps)
    ensures DistinctNames(eps)
  {
    forall i, j | 0 <= i < j < |eps| ensures eps[i].name != eps[j].name {
      SrvNamesDistinct(|eps|, eps[i].name);
      if eps[i].name == eps[j].name {
        OccursTwiceIn(NamesOf(eps), i, j);
      }
    }
  }

  /** Reordering the endpoints keeps the set of names. */
  lemma SequentialReordered(eps: seq<Endpoint>, eps': seq<Endpoint>)
    requires Sequential(eps) && |eps| == |eps'| && multiset(NamesOf(eps')) == multiset(NamesOf(eps))
    ensures Sequential(eps')
  {
  }

  // ---------------------------------------------------------------- the backend

  class Backend {
    const id: string
    const shard: nat
    var config: Config
    var dynamic: Dynamic
    var pathState: string
    var endpoints: seq<Endpoint>

    constructor (id: string, shard: nat, config: Config)
      ensures this.id == id && this.shard == shard && this.config == config && endpoints == []
    {
      this.id, this.shard, this.config := id, shard, config;
      dynamic := Dynamic(false, 0, 0);
      pathState := "";
      endpoints := [];
    }

    method FindEndpoint(target: string) returns (r: Option<nat>)
      ensures r.Some? ==> r.value < |endpoints| && endpoints[r.value].target == target
      ensures r.Some? ==> forall i :: 0 <= i < r.value ==> endpoints[i].target != target
      ensures r.None? ==> forall i :: 0 <= i < |endpoints| ==> endpoints[i].target != target
    {
      for i := 0 to |endpoints|
        invariant forall j :: 0 <= j < i ==> endpoints[j].target != target
      {
        if endpoints[i].target == target {
          return Some(i);
        }
      }
      return None;
    }

    method AcquireEndpoint(ip: string, port: nat, targetRef: string) returns (i: nat)
      modifies this`endpoints
      ensures i < |endpoints| && endpoints[i].target == TargetOf(ip, port)
      ensures if exists k :: 0 <= k < |old(endpoints)| && old(endpoints)[k].target == TargetOf(ip, port)
              then endpoints == old(endpoints)
              else endpoints == old(endpoints) + [NewEndpoint(config, |old(endpoints)|, ip, port, targetRef)]
      ensures old(OneTargetEach(endpoints)) ==> OneTargetEach(endpoints)
      ensures old(Sequential(endpoints)) && config.epNaming == Sequence ==> Sequential(endpoints)
    {
      var found := FindEndpoint(TargetOf(ip, port));
      if found.Some? {
        return found.value;
      }
      i := AddEndpoint(ip, port, targetRef);
    }

    method AddEndpoint(ip: string, port: nat, targetRef: string) returns (i: nat)
      modifies this`endpoints
      ensures i == |old(endpoints)|
      ensures endpoints == old(endpoints) + [NewEndpoint(config, |old(endpoints)|, ip, port, targetRef)]
      ensures var ep := endpoints[i];
              && ep.enabled && ep.ip == ip && ep.port == port && ep.targetRef == targetRef && ep.weight == config.initialWeight
              && ep.target == ip + ":" + Digits(port) && ep.useLabel == ep.sourceIP == ep.cookieValue == "" && ep.puid == 0
              && ep.name != "" && IsSlotName(config.epNaming, |old(endpoints)|, ip, port, targetRef, ep.name)
      ensures old(Sequential(endpoints)) && config.epNaming == Sequence ==> Sequential(endpoints)
    {
      i := |endpoints|;
      var ep := NewEndpoint(config, i, ip, port, targetRef);
      SlotNameIs(config.epNaming, i, ip, port, targetRef);
      if Sequential(endpoints) && config.epNaming == Sequence {
        SequentialAppend(endpoints, ep);
      }
      endpoints := endpoints + [ep];
    }

    method AddEmptyEndpoint()
      modifies this`endpoints
      ensures endpoints == old(endpoints) + [EmptySlot(config, |old(endpoints)|)]
      ensures var ep := endpoints[|old(endpoints)|];
              && !ep.enabled && ep.ip == "127.0.0.1" && ep.port == 1023 && ep.weight == config.initialWeight
              && ep.cookieValue == ep.name == SrvName(|old(endpoints)| + 1)
      ensures old(Sequential(endpoints)) && config.epNaming == Sequence ==> Sequential(endpoints)
    {
      if Sequential(endpoints) && config.epNaming == Sequence {
        SequentialAppend(endpoints, EmptySlot(config, |endpoints|));
      }
      var i := AddEndpoint(EMPTY_IP, EMPTY_PORT, "");
      var ep := endpoints[i];
      endpoints := endpoints[i := ep.(enabled := false, cookieValue := ep.name)];
    }
  }
}
