/** The container of hosts: what changed since the last commit, and how many hosts use SSL passthrough. */
module Hosts {
  import opened ChangeTracking

  class Host {
    const hostname: string
    var sslPassthrough: bool
    /** The other fields of the host. */
    var content: string

    constructor (hostname: string)
      ensures this.hostname == hostname && !sslPassthrough && content == ""
    {
      this.hostname, sslPassthrough, content := hostname, false, "";
    }
  }

  type Items = map<string, Host>

  ghost predicate Named(m: Items)
  {
    forall name :: name in m ==> m[name].hostname == name
  }

  /** The names of the hosts with SSL passthrough. */
  ghost function Passing(m: Items): set<string>
    reads m.Values
  {
    set name | name in m && m[name].sslPassthrough
  }

  /** Same content. */
  ghost predicate Same(add: Host, del: Host)
    reads add, del
  {
    add.hostname == del.hostname && add.sslPassthrough == del.sslPassthrough && add.content == del.content
  }

  /** The names of the hosts added again with the content they had. */
  ghost function Unchanged(add: Items, del: Items): set<string>
    reads add.Values, del.Values
  {
    set name | name in add && name in del && Same(add[name], del[name])
  }

  ghost function FlagsOf(m: Items): map<string, bool>
    reads m.Values
  {
    map name | name in m :: m[name].sslPassthrough
  }

  ghost function Raised(flags: map<string, bool>): set<string>
  {
    set name | name in flags && flags[name]
  }

  lemma FlagsPassing(m: Items)
    ensures Passing(m) == Raised(FlagsOf(m))
  {
  }

  lemma FlagSet(flags: map<string, bool>, name: string, value: bool)
    requires name in flags && flags[name] != value
    ensures |Raised(flags[name := value])| == |Raised(flags)| + if value then 1 else -1
  {
    if value {
      assert Raised(flags[name := value]) == Raised(flags) + {name};
    } else {
      assert Raised(flags[name := value]) == Raised(flags) - {name};
    }
  }

  lemma PassingRemoved(m: Items, name: string)
    requires name in m
    ensures |Passing(m - {name})| == |Passing(m)| - (if m[name].sslPassthrough then 1 else 0)
  {
    assert Passing(m - {name}) == Passing(m) - {name};
  }

  lemma PassingSet(m: Items, name: string, h: Host)
    requires if name in m then m[name].sslPassthrough == h.sslPassthrough else !h.sslPassthrough
    ensures Passing(m[name := h]) == Passing(m)
  {
  }

  // ---------------------------------------------------------------- what the hosts are, whatever is tracked

  datatype HostView = HostView(sslPassthrough: bool, content: string)

  ghost function Shown(m: Items): map<string, HostView>
    reads m.Values
  {
    map name | name in m :: HostView(m[name].sslPassthrough, m[name].content)
  }

  /** What an operation does to the hosts: shrinking and committing are not seen. */
  ghost function After(op: Op, view: map<string, HostView>): map<string, HostView>
  {
    match op
    case RemoveOp(names) => map name | name in view && name !in names :: view[name]
    case AcquireOp(name) => if name in view then view else view[name := HostView(false, "")]
    case PassthroughOp(name, value) => if name in view then view[name := view[name].(sslPassthrough := value)] else view
    case ContentOp(name, content) => if name in view then view[name := view[name].(content := content)] else view
    case _ => view
  }

  ghost function AfterAll(ops: seq<Op>, view: map<string, HostView>): map<string, HostView>
  {
    if ops == [] then view else After(ops[|ops| - 1], AfterAll(ops[..|ops| - 1], view))
  }

  lemma ShownRemoved(b: Book<Host>, b': Book<Host>, names: seq<string>)
    requires Removed(b, b', Members(names))
    ensures Shown(b'.items) == After(RemoveOp(names), Shown(b.items))
  {
    forall name ensures name in b'.items <==> name in b.items && name !in names {
      MembersMeans(names, name);
    }
  }

  lemma Unseen(op: Op, view: map<string, HostView>)
    requires op.ShrinkOp? || op.CommitOp?
    ensures After(op, view) == view
  {
  }

  lemma ShownAcquired(m: Items, name: string, h: Host)
    requires if name in m then m[name] == h else !h.sslPassthrough && h.content == ""
    ensures Shown(m[name := h]) == After(AcquireOp(name), Shown(m))
  {
  }

  lemma ShownSwapped(b: Book<Host>, b': Book<Host>)
    requires InBalance(b) && Swapped(b, b', Unchanged(b.add, b.del))
    ensures Shown(b'.items) == Shown(b.items)
  {
    hide InBalance, Same;
    forall name | name in b'.items
      ensures name in b.items && b'.items[name].sslPassthrough == b.items[name].sslPassthrough
      ensures b'.items[name].content == b.items[name].content
    {
      if name in Unchanged(b.add, b.del) {
        AddedIsItem(b, name);
        SameShown(b.add[name], b.del[name]);
      }
    }
  }

  lemma SameShown(add: Host, del: Host)
    requires Same(add, del)
    ensures add.sslPassthrough == del.sslPassthrough && add.content == del.content
  {
  }

  /** The hosts live or deleted have the names they are listed under, and are in `repr`. */
  ghost predicate Owned(b: Book<Host>, repr: set<Host>)
  {
    Named(b.items) && Named(b.del) && b.items.Values <= repr && b.del.Values <= repr
  }

  lemma OwnedRemoved(b: Book<Host>, b': Book<Host>, names: set<string>, repr: set<Host>)
    requires Owned(b, repr) && Removed(b, b', names)
    ensures Owned(b', repr) && b'.add == b.add
  {
  }

  lemma OwnedSwapped(b: Book<Host>, b': Book<Host>, names: set<string>, repr: set<Host>)
    requires Owned(b, repr) && Swapped(b, b', names)
    ensures Owned(b', repr) && b'.add.Keys <= b.add.Keys
  {
  }

  lemma OwnedCommitted(b: Book<Host>, repr: set<Host>)
    requires Owned(b, repr)
    ensures Owned(Book(b.items, map[], map[], b.items), repr)
  {
  }

  lemma OwnedAcquired(b: Book<Host>, name: string, h: Host, repr: set<Host>)
    requires Owned(b, repr) && h.hostname == name
    ensures Owned(b.(items := b.items[name := h], add := b.add[name := h]), repr + {h})
  {
  }

  class Container {
    var items: Items
    var itemsAdd: Items
    var itemsDel: Items
    var sslPassthroughCount: int

    /** The items at the last commit. */
    ghost var committed: Items

    constructor ()
      ensures S() == Book(map[], map[], map[], map[])
      ensures Tracked() && Counted()
    {
      items, itemsAdd, itemsDel, sslPassthroughCount, committed := map[], map[], map[], 0, map[];
      new;
      CommitBalanced<Host>(map[]);
    }

    ghost function S(): Book<Host>
      reads this
    {
      Book(items, itemsAdd, itemsDel, committed)
    }

    /** The items are the committed ones, without those deleted, with those added. */
    ghost predicate Tracked()
      reads this
    {
      InBalance(S())
    }

    /** How far the counter is from the number of live hosts with SSL passthrough. */
    ghost function Excess(): int
      reads this, items.Values
    {
      sslPassthroughCount - |Passing(items)|
    }

    /** The counter is the number of live hosts with SSL passthrough. */
    ghost predicate Counted()
      reads this, items.Values
    {
      Excess() == 0
    }

    ghost predicate Live(h: Host)
      reads this
    {
      h.hostname in items && items[h.hostname] == h
    }

    method HasSSLPassthrough() returns (r: bool)
      requires Counted()
      ensures r <==> exists name :: name in items && items[name].sslPassthrough
    {
      r := sslPassthroughCount > 0;
      if exists name :: name in items && items[name].sslPassthrough {
        var name :| name in items && items[name].sslPassthrough;
        assert name in Passing(items);
      } else {
        assert Passing(items) == {};
      }
    }

    /** The counter stays right exactly when the host is live, or nothing changes. */
    method SetSSLPassthrough(h: Host, value: bool)
      requires Named(items) && Counted()
      modifies this`sslPassthroughCount, h`sslPassthrough
      ensures h.sslPassthrough == value
      ensures Counted() <==> Live(h) || old(h.sslPassthrough) == value
    {
      if h.sslPassthrough == value {
        return;
      }
      ghost var before := FlagsOf(items);
      FlagsPassing(items);
      sslPassthroughCount := sslPassthroughCount + if value then 1 else -1;
      h.sslPassthrough := value;
      FlagsPassing(items);
      if Live(h) {
        assert FlagsOf(items) == before[h.hostname := value];
        FlagSet(before, h.hostname, value);
      } else {
        assert forall name :: name in items ==> items[name] != h;
        assert FlagsOf(items) == before;
      }
    }

    method AcquireHost(hostname: string) returns (h: Host, created: bool)
      modifies this
      ensures created <==> hostname !in old(items)
      ensures hostname in items && items[hostname] == h
      ensures created ==> fresh(h) && h.hostname == hostname && !h.sslPassthrough && h.content == ""
      ensures S() == if created then old(S()).(items := old(items)[hostname := h], add := old(itemsAdd)[hostname := h])
                     else old(S())
      ensures old(Tracked()) ==> Tracked()
      ensures Excess() == old(Excess())
    {
      if hostname in items {
        return items[hostname], false;
      }
      created := true;
      h := new Host(hostname);
      if Tracked() {
        AdditionBalanced(committed, itemsDel, itemsAdd, items, hostname, h);
      }
      PassingSet(items, hostname, h);
      items := items[hostname := h];
      itemsAdd := itemsAdd[hostname := h];
    }

    method ReleaseHost(h: Host)
      modifies this`sslPassthroughCount
      ensures sslPassthroughCount == old(sslPassthroughCount) - (if h.sslPassthrough then 1 else 0)
    {
      if h.sslPassthrough {
        sslPassthroughCount := sslPassthroughCount - 1;
      }
    }

    /** Removals keep the counter right, and are tracked exactly when none of the hosts was added since the last commit. */
    method RemoveAll(names: seq<string>)
      modifies this`items, this`itemsDel, this`sslPassthroughCount
      ensures Removed(old(S()), S(), Members(names))
      ensures old(Tracked()) ==> (Tracked() <==> forall n :: n in names ==> n !in itemsAdd)
      ensures Excess() == old(Excess())
    {
      for i := 0 to |names|
        invariant S() == RemoveSeq(old(S()), names[..i])
        invariant Excess() == old(Excess())
      {
        assert names[..i + 1][..i] == names[..i];
        if names[i] in items {
          PassingRemoved(items, names[i]);
          ReleaseHost(items[names[i]]);
          itemsDel := itemsDel[names[i] := items[names[i]]];
          items := items - {names[i]};
        }
      }
      assert names[..|names|] == names;
      RemoveSeqRemoves(old(S()), names);
      if old(Tracked()) {
        RemoveSeqBalance(old(S()), names);
      }
    }

    method SwapIfSame(name: string) returns (swapped: bool)
      requires name in itemsDel
      modifies this`items, this`itemsAdd, this`itemsDel
      ensures swapped <==> name in old(itemsAdd) && Same(old(itemsAdd)[name], old(itemsDel)[name])
      ensures S() == if swapped then Swap(old(S()), name) else old(S())
      ensures name in old(items) && name in old(itemsAdd) && old(items)[name] == old(itemsAdd)[name] ==> Excess() == old(Excess())
    {
      swapped := false;
      if name in itemsAdd {
        var add, del := itemsAdd[name], itemsDel[name];
        if add.hostname == del.hostname && add.sslPassthrough == del.sslPassthrough && add.content == del.content {
          swapped := true;
          if name in items && items[name] == add {
            PassingSet(items, name, del);
          }
          items := items[name := del];
          itemsAdd := itemsAdd - {name};
          itemsDel := itemsDel - {name};
        }
      }
    }

    /** Hosts added again with the content they had are no change. */
    method Shrink()
      modifies this`items, this`itemsAdd, this`itemsDel
      ensures Swapped(old(S()), S(), Unchanged(old(itemsAdd), old(itemsDel)))
      ensures old(Tracked()) ==> Tracked() && Excess() == old(Excess())
    {
      hide Same, Swap, InBalance, Swapped;
      var todo := itemsDel.Keys;
      ghost var s0 := S();
      ghost var order: seq<string> := [];
      while todo != {}
        invariant todo <= s0.del.Keys
        invariant S() == SwapAll(s0, order)
        invariant forall n :: n in order <==> n in Unchanged(s0.add, s0.del) && n !in todo
        invariant InBalance(s0) ==> Excess() == old(Excess())
      {
        var name :| name in todo;
        SwapAllElsewhere(s0, order, name);
        if InBalance(s0) {
          AddedIsItem(s0, name);
        }
        var swapped := SwapIfSame(name);
        todo := todo - {name};
        if swapped {
          order := order + [name];
          assert order[..|order| - 1] + [name] == order;
        }
      }
      SwapAllOf(s0, order, Unchanged(s0.add, s0.del));
    }

    method Commit()
      modifies this
      ensures S() == Book(old(items), map[], map[], old(items))
      ensures Tracked() && Excess() == old(Excess())
    {
      CommitBalanced(items);
      itemsAdd, itemsDel, committed := map[], map[], items;
    }

    /** Sets SSL passthrough of a host, if it is live. */
    method SetPassthroughOf(name: string, value: bool, ghost repr: set<Host>)
      requires Owned(S(), repr) && Counted()
      modifies this`sslPassthroughCount, repr
      ensures Counted() && Shown(items) == After(PassthroughOp(name, value), old(Shown(items)))
    {
      if name in items {
        assert items[name] in items.Values;
        SetSSLPassthrough(items[name], value);
      }
    }

    method SetContentOf(name: string, content: string, ghost repr: set<Host>)
      requires Owned(S(), repr) && Counted()
      modifies repr
      ensures Counted() && Shown(items) == After(ContentOp(name, content), old(Shown(items)))
    {
      if name in items {
        assert items[name] in items.Values;
        ghost var before := Passing(items);
        items[name].content := content;
        assert Passing(items) == before;
      }
    }

    method Apply(op: Op, ghost repr: set<Host>) returns (ghost repr': set<Host>)
      requires Owned(S(), repr) && Tracked() && Counted()
      requires !(op.RemoveOp? && itemsAdd != map[])
      modifies this, repr
      ensures Owned(S(), repr') && repr <= repr' && fresh(repr' - repr)
      ensures Tracked() && Counted() && Shown(items) == After(op, old(Shown(items)))
      ensures itemsAdd != map[] ==> NextCycle(KindOf(op), Cycle(old(itemsAdd) != map[], false)).added
    {
      hide InBalance, Members, Shown, After, Removed, Swapped, Owned, Passing;
      repr' := repr;
      match op
      case RemoveOp(names) =>
        RemoveAll(names);
        OwnedRemoved(old(S()), S(), Members(names), repr);
        ShownRemoved(old(S()), S(), names);
      case AcquireOp(name) =>
        ghost var was := items;
        var h, created := AcquireHost(name);
        ShownAcquired(was, name, h);
        assert was[name := h] == items;
        if created {
          repr' := repr + {h};
          OwnedAcquired(old(S()), name, h, repr);
        }
      case PassthroughOp(name, value) =>
        SetPassthroughOf(name, value, repr);
      case ContentOp(name, content) =>
        SetContentOf(name, content, repr);
      case ShrinkOp =>
        Shrink();
        OwnedSwapped(old(S()), S(), old(Unchanged(itemsAdd, itemsDel)), repr);
        assert old(itemsAdd) == map[] ==> itemsAdd.Keys == {};
        ShownSwapped(old(S()), S());
        Unseen(op, Shown(items));
      case CommitOp =>
        Commit();
        Unseen(op, Shown(items));
        OwnedCommitted(old(S()), repr);
    }

    /**
     * Over any run of cycles that remove before they acquire, and set SSL passthrough of live hosts only, the counter
     * is the number of live hosts with SSL passthrough, and the hosts are what the operations say.
     */
    method Run(ops: seq<Op>, ghost repr: set<Host>)
      requires Owned(S(), repr) && Tracked() && Counted()
      requires InOrder(KindsOf(ops, KindOf), Cycle(itemsAdd != map[], false))
      modifies this, repr
      ensures Tracked() && Counted() && Shown(items) == AfterAll(ops, old(Shown(items)))
    {
      hide After, InBalance;
      ghost var c, hosts := Cycle(itemsAdd != map[], false), repr;
      assert ops[0..] == ops;
      for i := 0 to |ops|
        invariant Owned(S(), hosts) && repr <= hosts && fresh(hosts - repr)
        invariant Tracked() && Counted()
        invariant Shown(items) == AfterAll(ops[..i], old(Shown(items)))
        invariant InOrder(KindsOf(ops[i..], KindOf), c) && !c.edited && (itemsAdd != map[] ==> c.added)
      {
        KindsNext(ops, KindOf, i);
        assert ops[..i + 1][..i] == ops[..i];
        hosts := Apply(ops[i], hosts);
        c := NextCycle(KindOf(ops[i]), c);
      }
      assert ops[..|ops|] == ops;
    }
  }

  datatype Op =
    | RemoveOp(names: seq<string>)
    | AcquireOp(name: string)
    | PassthroughOp(name: string, value: bool)
    | ContentOp(name: string, content: string)
    | ShrinkOp
    | CommitOp

  function KindOf(op: Op): Kind
  {
    match op
    case RemoveOp(_) => Removal
    case AcquireOp(_) => Addition
    case PassthroughOp(_, _) => Neutral
    case ContentOp(_, _) => Neutral
    case ShrinkOp => Shrinking
    case CommitOp => Committing
  }
}
