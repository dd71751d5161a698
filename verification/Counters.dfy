/**
 Usage counters with peaks, globally and per owner: MatchCounters with n_owner_subscriptions
 (src/bus/match.h) and the n_primaries counters of src/bus/name.h.
 */
module Counters {
  import opened Base

  datatype Counters = Counters(total: nat, totalPeak: nat, owners: map<nat, nat>, ownerPeak: nat) {
    function Of(owner: nat): nat {
      if owner in owners then owners[owner] else 0
    }

    // one more item of an owner
    function Add(owner: nat): Counters {
      var n := Of(owner) + 1;
      Counters(total + 1, Max(totalPeak, total + 1), owners[owner := n], Max(ownerPeak, n))
    }

    // one item of an owner less; peaks stay
    function Drop(owner: nat): Counters
      requires total > 0 && Of(owner) > 0
    {
      this.(total := total - 1, owners := owners[owner := (Of(owner) - 1) as nat])
    }

    // The counters count these items, each belonging to the owner it maps to.
    ghost predicate Exact<X>(items: map<X, nat>) {
      && total == |items| <= totalPeak
      && forall o :: Of(o) == |Belonging(items, o)| <= ownerPeak
    }
  }

  const ZERO: Counters := Counters(0, 0, map[], 0)

  ghost function Belonging<X>(items: map<X, nat>, o: nat): set<X> {
    set x | x in items && items[x] == o
  }

  lemma BelongingWith<X>(items: map<X, nat>, x: X, owner: nat, o: nat)
    requires x !in items
    ensures |Belonging(items[x := owner], o)| == |Belonging(items, o)| + if o == owner then 1 else 0
  {
    assert x !in Belonging(items, o);
    assert Belonging(items[x := owner], o) == Belonging(items, o) + if o == owner then {x} else {};
  }

  lemma AddExact<X>(c: Counters, items: map<X, nat>, x: X, owner: nat)
    requires c.Exact(items) && x !in items
    ensures c.Add(owner).Exact(items[x := owner])
  {
    var items' := items[x := owner];
    forall o ensures c.Add(owner).Of(o) == |Belonging(items', o)| <= c.Add(owner).ownerPeak {
      BelongingWith(items, x, owner, o);
    }
  }

  lemma DropExact<X>(c: Counters, items: map<X, nat>, x: X)
    requires c.Exact(items) && x in items
    ensures c.total > 0 && c.Of(items[x]) > 0
    ensures c.Drop(items[x]).Exact(items - {x})
  {
    var rest := items - {x};
    assert items == rest[x := items[x]];
    BelongingWith(rest, x, items[x], items[x]);
    var c' := c.Drop(items[x]);
    forall o ensures c'.Of(o) == |Belonging(rest, o)| <= c'.ownerPeak {
      BelongingWith(rest, x, items[x], o);
    }
  }

  function Sum(c: Counters, owners: seq<nat>): nat {
    if owners == [] then 0 else c.Of(owners[0]) + Sum(c, owners[1..])
  }

  // The per-owner counters add up to the global one.
  lemma {:induction false} OwnersSumUp<X>(c: Counters, items: map<X, nat>, owners: seq<nat>)
    requires forall o :: c.Of(o) == |Belonging(items, o)|
    requires NoDuplicates(owners) && forall x :: x in items ==> items[x] in owners
    ensures Sum(c, owners) == |items|
  {
    if owners == [] {
      assert items == map[];
    } else {
      OwnersSumUpSome(c, items, owners);
      assert (set x | x in items && items[x] in owners) == items.Keys;
    }
  }

  lemma {:induction false} OwnersSumUpSome<X>(c: Counters, items: map<X, nat>, owners: seq<nat>)
    requires forall o :: c.Of(o) == |Belonging(items, o)|
    requires NoDuplicates(owners)
    ensures Sum(c, owners) == |set x | x in items && items[x] in owners|
  {
    var all := set x | x in items && items[x] in owners;
    assert forall o :: o in owners <==> owners != [] && (o == owners[0] || o in owners[1..]);
    if owners == [] {
      assert all == {};
    } else {
      var rest := set x | x in items && items[x] in owners[1..];
      OwnersSumUpSome(c, items, owners[1..]);
      assert owners[0] !in owners[1..];
      assert rest !! Belonging(items, owners[0]);
      assert all == rest + Belonging(items, owners[0]);
    }
  }
}
