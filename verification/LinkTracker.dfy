/**
 The dependency tracker: a symmetric graph of links between Kubernetes and HAProxy
 resources, queried for everything a list of changed resources can affect.
 */
module LinkTracker {
  import opened Ordering

  datatype Ref = Ref(ctx: string, name: string)

  /** resource type -> resource name -> linked resources */
  type Links = map<string, map<string, set<Ref>>>

  const EMPTY_REF := Ref("", "")

  function At(t: Links, r: Ref): set<Ref>
  {
    if r.ctx in t && r.name in t[r.ctx] then t[r.ctx][r.name] else {}
  }

  /** The links that tracking `left` and `right` together gives to `r`. */
  ghost function NewLinks(left: Ref, right: Ref, r: Ref): set<Ref>
  {
    if left == EMPTY_REF || right == EMPTY_REF then {}
    else (if r == left then {right} else {}) + (if r == right then {left} else {})
  }

  ghost predicate Symmetric(t: Links)
  {
    forall a, b :: b in At(t, a) ==> a in At(t, b)
  }

  ghost function KeysOf(t: Links): set<Ref>
  {
    set c, n | c in t && n in t[c] :: Ref(c, n)
  }

  ghost function TargetsOf(t: Links): set<Ref>
  {
    set c, n, r | c in t && n in t[c] && r in t[c][n] :: r
  }

  function RefsOf(m: map<string, seq<string>>): set<Ref>
  {
    set c, n | c in m && n in m[c] :: Ref(c, n)
  }

  /** What a query lists for one resource type: names in strictly ascending order. */
  predicate IsIdList(names: seq<string>)
  {
    names != [] && SortedBy(names, LexLess)
  }

  /** From `t` to `t'` some resources of `component` lost all their links, nothing else changed. */
  ghost predicate OnlyEmptied(t: Links, t': Links, component: set<Ref>)
  {
    forall r :: At(t', r) == At(t, r) || (r in component && At(t', r) == {})
  }

  /** From `t` to `t'` a resource that lost its links passed that on to everything it was linked to. */
  ghost predicate Drained(t: Links, t': Links)
  {
    forall r, q :: q in At(t, r) && At(t', r) == {} ==> At(t', q) == {}
  }

  // ---------------------------------------------------------------- reachability

  ghost predicate IsPath(t: Links, p: seq<Ref>)
  {
    |p| >= 2 && forall i :: 0 <= i < |p| - 1 ==> IsStep(t, p, i)
  }

  ghost predicate IsStep(t: Links, p: seq<Ref>, i: nat)
    requires i < |p| - 1
  {
    p[i + 1] in At(t, p[i])
  }

  /** `b` is reached from `a` by one or more links. */
  ghost predicate Reachable(t: Links, a: Ref, b: Ref)
  {
    exists p :: IsPath(t, p) && p[0] == a && p[|p| - 1] == b
  }

  ghost predicate ReachableFromAny(t: Links, inputs: set<Ref>, r: Ref)
  {
    exists i :: i in inputs && Reachable(t, i, r)
  }

  lemma ReachableLink(t: Links, a: Ref, b: Ref)
    requires b in At(t, a)
    ensures Reachable(t, a, b)
  {
    assert IsPath(t, [a, b]);
  }

  lemma ReachableTransitive(t: Links, a: Ref, b: Ref, c: Ref)
    requires Reachable(t, a, b) && Reachable(t, b, c)
    ensures Reachable(t, a, c)
  {
    var p :| IsPath(t, p) && p[0] == a && p[|p| - 1] == b;
    var q :| IsPath(t, q) && q[0] == b && q[|q| - 1] == c;
    var r := p + q[1..];
    assert IsPath(t, r) by {
      forall i | 0 <= i < |r| - 1 ensures IsStep(t, r, i) {
        if i < |p| - 1 {
          assert IsStep(t, p, i);
        } else {
          assert IsStep(t, q, i - |p| + 1);
        }
      }
    }
  }

  ghost predicate Closed(t: Links, s: set<Ref>)
  {
    forall r :: r in s ==> At(t, r) <= s
  }

  lemma {:induction false} ClosedHoldsPath(t: Links, s: set<Ref>, p: seq<Ref>, k: nat)
    requires Closed(t, s) && IsPath(t, p) && At(t, p[0]) <= s
    requires 1 <= k < |p|
    ensures p[k] in s
  {
    if k == 1 {
      assert IsStep(t, p, 0);
    } else {
      ClosedHoldsPath(t, s, p, k - 1);
      assert IsStep(t, p, k - 1);
    }
  }

  /** A set closed under links that holds the neighbours of the inputs holds all they reach. */
  lemma ClosedHoldsReachable(t: Links, s: set<Ref>, inputs: set<Ref>, r: Ref)
    requires Closed(t, s) && (forall i :: i in inputs ==> At(t, i) <= s)
    requires ReachableFromAny(t, inputs, r)
    ensures r in s
  {
    var i :| i in inputs && Reachable(t, i, r);
    var p :| IsPath(t, p) && p[0] == i && p[|p| - 1] == r;
    ClosedHoldsPath(t, s, p, |p| - 1);
  }

  /**
   On a symmetric graph the result of a query is the union of the connected
   components of the inputs that have a link at all.
   */
  lemma ReachableIsComponents(t: Links, inputs: set<Ref>, r: Ref)
    requires Symmetric(t)
    ensures ReachableFromAny(t, inputs, r) <==>
            exists i :: i in inputs && At(t, i) != {} && (r == i || Reachable(t, i, r))
  {
    if ReachableFromAny(t, inputs, r) {
      var i :| i in inputs && Reachable(t, i, r);
      ReachableStartsWithLink(t, i, r);
    }
    if exists i :: i in inputs && At(t, i) != {} && (r == i || Reachable(t, i, r)) {
      var i :| i in inputs && At(t, i) != {} && (r == i || Reachable(t, i, r));
      if r == i {
        var n :| n in At(t, i);
        ReachableLink(t, i, n);
        ReachableLink(t, n, i);
        ReachableTransitive(t, i, n, i);
      }
    }
  }

  // ---------------------------------------------------------------- the tracker

  class Tracker {
    var tracking: Links

    constructor ()
      ensures tracking == map[]
    {
      tracking := map[];
    }

    method ClearLinks()
      modifies this
      ensures tracking == map[]
    {
      tracking := map[];
    }

    method TrackNames(leftContext: string, leftName: string, rightContext: string, rightName: string)
      requires Symmetric(tracking)
      modifies this
      ensures Symmetric(tracking)
      ensures forall r :: At(tracking, r) == old(At(tracking, r)) +
                NewLinks(Ref(leftContext, leftName), Ref(rightContext, rightName), r)
    {
      TrackRefs(Ref(leftContext, leftName), Ref(rightContext, rightName));
    }

    /** Links both ends to each other; an empty reference is ignored. */
    method TrackRefs(left: Ref, right: Ref)
      requires Symmetric(tracking)
      modifies this
      ensures Symmetric(tracking)
      ensures forall r :: At(tracking, r) == old(At(tracking, r)) + NewLinks(left, right, r)
    {
      if left == EMPTY_REF || right == EMPTY_REF {
        return;
      }
      Track(left, right);
      Track(right, left);
    }

    method Track(dest: Ref, source: Ref)
      modifies this
      ensures forall r :: At(tracking, r) ==
                old(At(tracking, r)) + (if r == dest then {source} else {})
    {
      var names := if dest.ctx in tracking then tracking[dest.ctx] else map[];
      var refs := if dest.name in names then names[dest.name] else {};
      tracking := tracking[dest.ctx := names[dest.name := refs + {source}]];
    }

    /**
     The recursive traversal: adds to `out` everything linked to the named
     resources, directly or through resources that were not in `out` yet.
     */
    method UpdateOutput(ctx: string, namelist: seq<string>, out: set<Ref>, ghost inputs: set<Ref>)
      returns (res: set<Ref>)
      requires out <= TargetsOf(tracking)
      requires forall n :: n in namelist ==>
                 Ref(ctx, n) in inputs || ReachableFromAny(tracking, inputs, Ref(ctx, n))
      ensures out <= res <= TargetsOf(tracking)
      ensures forall n :: n in namelist ==> At(tracking, Ref(ctx, n)) <= res
      ensures forall r :: r in res - out ==> At(tracking, r) <= res
      ensures forall r :: r in res - out ==> ReachableFromAny(tracking, inputs, r)
      decreases TargetsOf(tracking) - out
    {
      res := out;
      if ctx !in tracking {
        return;
      }
      for k := 0 to |namelist|
        invariant out <= res <= TargetsOf(tracking)
        invariant forall j :: 0 <= j < k ==> At(tracking, Ref(ctx, namelist[j])) <= res
        invariant forall r :: r in res - out ==> At(tracking, r) <= res
        invariant forall r :: r in res - out ==> ReachableFromAny(tracking, inputs, r)
      {
        var cur := Ref(ctx, namelist[k]);
        var todo := At(tracking, cur);
        while todo != {}
          invariant todo <= At(tracking, cur)
          invariant out <= res <= TargetsOf(tracking)
          invariant At(tracking, cur) - todo <= res
          invariant forall j :: 0 <= j < k ==> At(tracking, Ref(ctx, namelist[j])) <= res
          invariant forall r :: r in res - out ==> At(tracking, r) <= res
          invariant forall r :: r in res - out ==> ReachableFromAny(tracking, inputs, r)
          decreases todo
        {
          var ref :| ref in todo;
          todo := todo - {ref};
          if ref !in res {
            NextReachable(tracking, inputs, cur, ref);
            res := UpdateOutput(ref.ctx, [ref.name], res + {ref}, inputs);
            assert ref.name in [ref.name];
          }
        }
      }
    }

    method RemoveRef(ctx: string, name: string, ghost component: set<Ref>)
      requires Closed(tracking, component) && Ref(ctx, name) in component
      modifies this
      ensures KeysOf(tracking) <= old(KeysOf(tracking))
      ensures At(tracking, Ref(ctx, name)) == {}
      ensures OnlyEmptied(old(tracking), tracking, component)
      ensures forall r :: Reachable(old(tracking), Ref(ctx, name), r) ==> At(tracking, r) == {}
    {
      RemoveLinks(ctx, name, component);
      forall r | Reachable(old(tracking), Ref(ctx, name), r) ensures At(tracking, r) == {} {
        DrainedReaches(old(tracking), tracking, Ref(ctx, name), r);
      }
    }

    /** The recursion of removeRef. */
    method RemoveLinks(ctx: string, name: string, ghost component: set<Ref>)
      requires Closed(tracking, component) && Ref(ctx, name) in component
      modifies this
      ensures KeysOf(tracking) <= old(KeysOf(tracking))
      ensures At(tracking, Ref(ctx, name)) == {}
      ensures OnlyEmptied(old(tracking), tracking, component)
      ensures Drained(old(tracking), tracking)
      decreases KeysOf(tracking)
    {
      var ref := Ref(ctx, name);
      if ctx !in tracking || name !in tracking[ctx] {
        return;
      }
      var n := tracking[ctx][name];
      assert ref in KeysOf(tracking) && n == At(tracking, ref);
      tracking := tracking[ctx := tracking[ctx] - {name}];
      var todo := n;
      while todo != {}
        invariant todo <= n
        invariant KeysOf(tracking) <= old(KeysOf(tracking)) - {ref}
        invariant At(tracking, ref) == {}
        invariant OnlyEmptied(old(tracking), tracking, component)
        invariant DrainedBut(old(tracking), tracking, ref, todo)
        decreases todo
      {
        var next :| next in todo;
        ghost var t := tracking;
        RemoveLinks(next.ctx, next.name, component);
        DrainedNext(old(tracking), t, tracking, ref, todo, next, component);
        todo := todo - {next};
      }
    }

    /**
     Lists what the input resources are linked to, directly or not. With
     `removeMatches` the listed resources leave the graph.
     */
    method QueryLinks(input: map<string, seq<string>>, removeMatches: bool)
      returns (output: map<string, seq<string>>)
      requires Symmetric(tracking)
      modifies this
      ensures Symmetric(tracking)
      ensures forall r :: r in RefsOf(output) <==> ReachableFromAny(old(tracking), RefsOf(input), r)
      ensures forall c :: c in output ==> output[c] != [] && SortedBy(output[c], LexLess)
      ensures !removeMatches ==> tracking == old(tracking)
      ensures removeMatches ==>
                forall r :: At(tracking, r) == if r in RefsOf(output) then {} else old(At(tracking, r))
    {
      var out := CollectOutput(input);
      ReachableIsClosed(tracking, RefsOf(input), out);
      output := BuildOutput(out, removeMatches);
      if removeMatches {
        RemovalKeepsSymmetry(old(tracking), tracking, out);
      }
    }

    /** Second half of QueryLinks: one sorted list per resource type, removing what is listed. */
    method BuildOutput(out: set<Ref>, removeMatches: bool) returns (output: map<string, seq<string>>)
      requires Closed(tracking, out)
      modifies this
      ensures RefsOf(output) == out
      ensures forall c :: c in output ==> IsIdList(output[c])
      ensures !removeMatches ==> tracking == old(tracking)
      ensures removeMatches ==> forall r :: At(tracking, r) == if r in out then {} else old(At(tracking, r))
    {
      output := map[];
      var contexts := set r | r in out :: r.ctx;
      while contexts != {}
        invariant forall r :: r in out ==> r.ctx in contexts || r.ctx in output
        invariant forall c :: c in contexts ==> exists r :: r in out && r.ctx == c
        invariant forall c :: c in output ==> IsIdList(output[c]) && ListsGroup(output[c], c, out)
        invariant !removeMatches ==> tracking == old(tracking)
        invariant OnlyEmptied(old(tracking), tracking, out)
        invariant removeMatches ==> forall r :: r in out && r.ctx in output ==> At(tracking, r) == {}
        decreases contexts
      {
        var ctx :| ctx in contexts;
        ghost var w :| w in out && w.ctx == ctx;
        var group := set r | r in out && r.ctx == ctx;
        var idlist := Drain(group, ctx, removeMatches, out);
        assert ListsGroup(idlist, ctx, out);
        assert w.name in idlist;
        output := output[ctx := idlist];
        contexts := contexts - {ctx};
      }
      OutputListsAll(output, out);
    }

    /** First half of QueryLinks: the traversal over every input list. */
    method CollectOutput(input: map<string, seq<string>>) returns (out: set<Ref>)
      ensures forall r :: r in out <==> ReachableFromAny(tracking, RefsOf(input), r)
    {
      ghost var inputs := RefsOf(input);
      out := {};
      var todo := input.Keys;
      while todo != {}
        invariant todo <= input.Keys && out <= TargetsOf(tracking)
        invariant forall r :: r in out ==> At(tracking, r) <= out
        invariant forall r :: r in out ==> ReachableFromAny(tracking, inputs, r)
        invariant forall r :: r in inputs && r.ctx !in todo ==> At(tracking, r) <= out
        decreases todo
      {
        var ctx :| ctx in todo;
        todo := todo - {ctx};
        out := UpdateOutput(ctx, input[ctx], out, inputs);
      }
      forall r | ReachableFromAny(tracking, inputs, r) ensures r in out {
        ClosedHoldsReachable(tracking, out, inputs, r);
      }
    }

    /** Inner loop of QueryLinks: the sorted names of one resource type. */
    method Drain(group: set<Ref>, ctx: string, removeMatches: bool, ghost component: set<Ref>)
      returns (idlist: seq<string>)
      requires group <= component && Closed(tracking, component)
      requires forall r :: r in group ==> r.ctx == ctx
      modifies this
      ensures forall n :: n in idlist <==> Ref(ctx, n) in group
      ensures SortedBy(idlist, LexLess)
      ensures !removeMatches ==> tracking == old(tracking)
      ensures OnlyEmptied(old(tracking), tracking, component)
      ensures removeMatches ==> forall r :: r in group ==> At(tracking, r) == {}
    {
      idlist := [];
      var todo := group;
      while todo != {}
        invariant todo <= group
        invariant forall n :: n in idlist <==> Ref(ctx, n) in group - todo
        invariant forall i, j :: 0 <= i < j < |idlist| ==> idlist[i] != idlist[j]
        invariant !removeMatches ==> tracking == old(tracking)
        invariant OnlyEmptied(old(tracking), tracking, component)
        invariant removeMatches ==> forall r :: r in group - todo ==> At(tracking, r) == {}
        decreases todo
      {
        var r :| r in todo;
        todo := todo - {r};
        idlist := idlist + [r.name];
        if removeMatches {
          RemoveRef(r.ctx, r.name, component);
        }
      }
      idlist := SortNames(idlist);
    }
  }

  /** The same while the links of `ref` are followed, all but those of `todo`. */
  ghost predicate DrainedBut(t: Links, t': Links, ref: Ref, todo: set<Ref>)
  {
    forall r, q :: q in At(t, r) && At(t', r) == {} && !(r == ref && q in todo) ==> At(t', q) == {}
  }

  lemma DrainedNext(t: Links, t': Links, t'': Links, ref: Ref, todo: set<Ref>, next: Ref, component: set<Ref>)
    requires OnlyEmptied(t, t', component) && OnlyEmptied(t', t'', component)
    requires DrainedBut(t, t', ref, todo) && Drained(t', t'') && At(t'', next) == {}
    ensures DrainedBut(t, t'', ref, todo - {next})
  {
    forall r, q | q in At(t, r) && At(t'', r) == {} && !(r == ref && q in todo - {next}) ensures At(t'', q) == {} {
      if At(t', r) == {} {
        assert q == next || At(t', q) == {};
      } else {
        assert q in At(t', r);
      }
    }
  }

  lemma DrainedReaches(t: Links, t': Links, a: Ref, b: Ref)
    requires Drained(t, t') && At(t', a) == {} && Reachable(t, a, b)
    ensures At(t', b) == {}
  {
    var p :| IsPath(t, p) && p[0] == a && p[|p| - 1] == b;
    DrainedPath(t, t', p, |p| - 1);
  }

  lemma {:induction false} DrainedPath(t: Links, t': Links, p: seq<Ref>, k: nat)
    requires Drained(t, t') && IsPath(t, p) && At(t', p[0]) == {} && k < |p|
    ensures At(t', p[k]) == {}
  {
    if k > 0 {
      DrainedPath(t, t', p, k - 1);
      assert IsStep(t, p, k - 1);
    }
  }

  lemma NextReachable(t: Links, inputs: set<Ref>, cur: Ref, ref: Ref)
    requires cur in inputs || ReachableFromAny(t, inputs, cur)
    requires ref in At(t, cur)
    ensures ReachableFromAny(t, inputs, ref)
  {
    ReachableLink(t, cur, ref);
    if cur !in inputs {
      var i :| i in inputs && Reachable(t, i, cur);
      ReachableTransitive(t, i, cur, ref);
    }
  }

  lemma ReachableIsClosed(t: Links, inputs: set<Ref>, out: set<Ref>)
    requires forall r :: r in out <==> ReachableFromAny(t, inputs, r)
    ensures Closed(t, out)
  {
    forall r, n | r in out && n in At(t, r) ensures n in out {
      NextReachable(t, inputs, r, n);
    }
  }

  ghost predicate ListsGroup(names: seq<string>, ctx: string, out: set<Ref>)
  {
    forall n :: n in names <==> Ref(ctx, n) in out
  }

  lemma OutputListsAll(output: map<string, seq<string>>, out: set<Ref>)
    requires forall r :: r in out ==> r.ctx in output
    requires forall c :: c in output ==> ListsGroup(output[c], c, out)
    ensures RefsOf(output) == out
  {
    forall r ensures r in RefsOf(output) <==> r in out {
      assert r == Ref(r.ctx, r.name);
    }
  }

  /** Dropping whole components leaves no dangling half link. */
  lemma RemovalKeepsSymmetry(t: Links, t': Links, out: set<Ref>)
    requires Symmetric(t) && Closed(t, out)
    requires forall r :: At(t', r) == if r in out then {} else At(t, r)
    ensures Symmetric(t')
  {
    forall a, b | b in At(t', a) ensures a in At(t', b) {
      assert a in At(t, b);
    }
  }

  /** Asking again after a removing query finds nothing. */
  lemma RepeatedQueryIsEmpty(t: Links, t': Links, inputs: set<Ref>, r: Ref)
    requires Symmetric(t)
    requires forall x :: At(t', x) == if ReachableFromAny(t, inputs, x) then {} else At(t, x)
    ensures !ReachableFromAny(t', inputs, r)
  {
    forall i | i in inputs ensures At(t', i) == {} {
      if At(t, i) != {} {
        ReachableIsComponents(t, inputs, i);
      }
    }
    forall i | i in inputs ensures !Reachable(t', i, r) {
      ReachableStartsWithLink(t', i, r);
    }
  }

  lemma ReachableStartsWithLink(t: Links, a: Ref, b: Ref)
    ensures Reachable(t, a, b) ==> At(t, a) != {}
  {
    if Reachable(t, a, b) {
      var p :| IsPath(t, p) && p[0] == a && p[|p| - 1] == b;
      assert IsStep(t, p, 0);
    }
  }
}
