/**
 Trees of reference-counted nodes, as the registries of src/bus/match.c build them: a node
 counts its children, the rules on its list, and the references that a running operation
 holds for a moment.
 */
module RefTree {
  import opened Base

  type Parents<!N> = N -> Option<N>
  type Nodes<N> = map<N, nat>
  type Lists<N, R> = map<N, seq<R>>

  ghost function Children<N>(parent: Parents<N>, nodes: Nodes<N>, n: N): set<N> {
    set c | c in nodes && parent(c) == Some(n)
  }

  function RulesAt<N(==), R>(lists: Lists<N, R>, n: N): seq<R> {
    if n in lists then lists[n] else []
  }

  ghost predicate CountExact<N, R>(parent: Parents<N>, nodes: Nodes<N>, lists: Lists<N, R>, held: multiset<N>, n: N)
    requires n in nodes
  {
    0 < nodes[n] == |Children(parent, nodes, n)| + |RulesAt(lists, n)| + held[n]
  }

  // No node outlives its references, and none is linked below a freed one.
  ghost predicate Balanced<N(!new), R>(parent: Parents<N>, nodes: Nodes<N>, lists: Lists<N, R>, held: multiset<N>) {
    && (forall n :: n in nodes ==> CountExact(parent, nodes, lists, held, n))
    && (forall n :: n in nodes && parent(n).Some? ==> parent(n).value in nodes)
    && (forall n :: n in lists ==> n in nodes)
    && (forall n :: n in held ==> n in nodes)
  }

  lemma ChildrenOfAdded<N>(parent: Parents<N>, nodes: Nodes<N>, c: N, v: nat, n: N)
    requires c !in nodes
    ensures Children(parent, nodes[c := v], n)
         == Children(parent, nodes, n) + (if parent(c) == Some(n) then {c} else {})
    ensures c !in Children(parent, nodes, n)
  {
  }

  lemma ChildrenOfChanged<N>(parent: Parents<N>, nodes: Nodes<N>, c: N, v: nat, n: N)
    requires c in nodes
    ensures Children(parent, nodes[c := v], n) == Children(parent, nodes, n)
  {
  }

  lemma ChildrenOfRemoved<N>(parent: Parents<N>, nodes: Nodes<N>, c: N, n: N)
    requires c in nodes
    ensures Children(parent, nodes - {c}, n)
         == Children(parent, nodes, n) - (if parent(c) == Some(n) then {c} else {})
    ensures parent(c) == Some(n) ==> c in Children(parent, nodes, n)
  {
  }

  // a count and a temporary reference rise together
  lemma BalancedRetain<N(!new), R>(parent: Parents<N>, nodes: Nodes<N>, lists: Lists<N, R>, held: multiset<N>, n: N)
    requires Balanced(parent, nodes, lists, held) && n in nodes
    ensures Balanced(parent, nodes[n := nodes[n] + 1], lists, held + multiset{n})
  {
    var nodes' := nodes[n := nodes[n] + 1];
    forall x | x in nodes'
      ensures CountExact(parent, nodes', lists, held + multiset{n}, x)
    {
      assert CountExact(parent, nodes, lists, held, x);
      ChildrenOfChanged(parent, nodes, n, nodes[n] + 1, x);
    }
  }

  lemma BalancedDrop<N(!new), R>(parent: Parents<N>, nodes: Nodes<N>, lists: Lists<N, R>, held: multiset<N>, n: N)
    requires Balanced(parent, nodes, lists, held) && n in held && nodes[n] > 1
    ensures Balanced(parent, nodes[n := nodes[n] - 1], lists, held - multiset{n})
  {
    var nodes' := nodes[n := nodes[n] - 1];
    forall x | x in nodes'
      ensures CountExact(parent, nodes', lists, held - multiset{n}, x)
    {
      CountAfterDrop(parent, nodes, lists, held, n, x);
    }
  }

  lemma CountAfterDrop<N(!new), R>(parent: Parents<N>, nodes: Nodes<N>, lists: Lists<N, R>,
    held: multiset<N>, n: N, x: N)
    requires n in nodes && n in held && nodes[n] > 1 && x in nodes && CountExact(parent, nodes, lists, held, x)
    ensures CountExact(parent, nodes[n := nodes[n] - 1], lists, held - multiset{n}, x)
  {
    ChildrenOfChanged(parent, nodes, n, nodes[n] - 1, x);
    hide Children;
  }

  // A fresh node carries its creator's reference and takes one of its parent.
  function Grown<N(==)>(parent: Parents<N>, nodes: Nodes<N>, n: N): Nodes<N>
    requires parent(n).Some? ==> parent(n).value in nodes
  {
    if parent(n).Some? then nodes[n := 1][parent(n).value := nodes[parent(n).value] + 1] else nodes[n := 1]
  }

  lemma BalancedCreate<N(!new), R>(parent: Parents<N>, nodes: Nodes<N>, lists: Lists<N, R>, held: multiset<N>, n: N)
    requires Balanced(parent, nodes, lists, held) && n !in nodes
    requires parent(n).Some? ==> parent(n).value in nodes
    ensures Balanced(parent, Grown(parent, nodes, n), lists, held + multiset{n})
  {
    var grown := Grown(parent, nodes, n);
    assert Children(parent, nodes, n) == {};
    forall x | x in grown
      ensures CountExact(parent, grown, lists, held + multiset{n}, x)
    {
      ChildrenOfAdded(parent, nodes, n, 1, x);
      if parent(n).Some? {
        ChildrenOfChanged(parent, nodes[n := 1], parent(n).value, nodes[parent(n).value] + 1, x);
      }
      if x in nodes {
        assert CountExact(parent, nodes, lists, held, x);
      }
    }
  }

  // A node that loses its last reference hands its own reference on the parent back.
  function Orphaned<N>(parent: Parents<N>, held: multiset<N>, n: N): multiset<N> {
    if parent(n).Some? then held - multiset{n} + multiset{parent(n).value} else held - multiset{n}
  }

  lemma LastReference<N(!new), R>(parent: Parents<N>, nodes: Nodes<N>, lists: Lists<N, R>, held: multiset<N>, n: N)
    requires Balanced(parent, nodes, lists, held) && n in held && nodes[n] == 1
    ensures RulesAt(lists, n) == [] && Children(parent, nodes, n) == {} && held[n] == 1
  {
    assert CountExact(parent, nodes, lists, held, n);
  }

  // a node that someone refers to beside its children survives the loss of one child
  lemma ParentSurvives<N(!new), R>(parent: Parents<N>, nodes: Nodes<N>, lists: Lists<N, R>,
    held: multiset<N>, n: N, p: N)
    requires Balanced(parent, nodes, lists, held) && n in nodes && parent(n) == Some(p) && p in held
    ensures p in nodes && nodes[p] > 1
  {
    assert CountExact(parent, nodes, lists, held, p);
    assert n in Children(parent, nodes, p);
  }

  lemma OrphanedAt<N>(parent: Parents<N>, held: multiset<N>, n: N, x: N)
    requires n in held && parent(n) != Some(n)
    ensures Orphaned(parent, held, n)[x] == held[x] - (if x == n then 1 else 0) + if parent(n) == Some(x) then 1 else 0
  {
  }

  lemma CountAfterRemove<N, R>(parent: Parents<N>, nodes: Nodes<N>, lists: Lists<N, R>, held: multiset<N>, n: N, x: N)
    requires n in nodes && n in held && parent(n) != Some(n) && x in nodes && x != n &&
      CountExact(parent, nodes, lists, held, x)
    ensures CountExact(parent, nodes - {n}, lists - {n}, Orphaned(parent, held, n), x)
  {
    ChildrenOfRemoved(parent, nodes, n, x);
    OrphanedAt(parent, held, n, x);
    hide Orphaned;
  }

  lemma BalancedRemove<N(!new), R>(parent: Parents<N>, nodes: Nodes<N>, lists: Lists<N, R>, held: multiset<N>, n: N)
    requires Balanced(parent, nodes, lists, held) && n in held && nodes[n] == 1
    requires parent(n) != Some(n)
    ensures Balanced(parent, nodes - {n}, lists - {n}, Orphaned(parent, held, n))
  {
    LastReference(parent, nodes, lists, held, n);
    hide Orphaned;
    forall x | x in nodes - {n} ensures CountExact(parent, nodes - {n}, lists - {n}, Orphaned(parent, held, n), x) {
      CountAfterRemove(parent, nodes, lists, held, n, x);
    }
    hide CountExact;
    forall x | x in nodes - {n} && parent(x).Some? ensures parent(x).value in nodes - {n} {
      assert x !in Children(parent, nodes, n);
    }
    hide Children;
    forall x | x in Orphaned(parent, held, n) ensures x in nodes - {n} {
      OrphanedAt(parent, held, n, x);
    }
  }

  lemma AliveForAReason<N(!new), R>(parent: Parents<N>, nodes: Nodes<N>, lists: Lists<N, R>, n: N)
    requires Balanced(parent, nodes, lists, multiset{}) && n in nodes
    ensures RulesAt(lists, n) != [] || Children(parent, nodes, n) != {}
  {
    assert CountExact(parent, nodes, lists, multiset{}, n);
  }

  lemma HeldIsLive<N(!new), R>(parent: Parents<N>, nodes: Nodes<N>, lists: Lists<N, R>, held: multiset<N>, n: N)
    requires Balanced(parent, nodes, lists, held)
    ensures n in held ==> n in nodes
    ensures n in lists ==> n in nodes
    ensures n in nodes && parent(n).Some? ==> parent(n).value in nodes
    ensures n in nodes ==> nodes[n] >= held[n] + |RulesAt(lists, n)| && nodes[n] > 0
  {
    if n in nodes {
      assert CountExact(parent, nodes, lists, held, n);
    }
  }

  // an empty list appears
  lemma BalancedEmptyList<N(!new), R>(parent: Parents<N>, nodes: Nodes<N>, lists: Lists<N, R>, held: multiset<N>, n: N)
    requires Balanced(parent, nodes, lists, held) && n in nodes && n !in lists
    ensures Balanced(parent, nodes, lists[n := []], held)
  {
    forall x | x in nodes
      ensures CountExact(parent, nodes, lists[n := []], held, x)
    {
      assert CountExact(parent, nodes, lists, held, x);
    }
  }

  // a rule enters a list together with its reference
  lemma BalancedList<N(!new), R>(parent: Parents<N>, nodes: Nodes<N>, lists: Lists<N, R>, held: multiset<N>, n: N, r: R)
    requires Balanced(parent, nodes, lists, held) && n in lists
    ensures Balanced(parent, nodes[n := nodes[n] + 1], lists[n := lists[n] + [r]], held)
  {
    var nodes', lists' := nodes[n := nodes[n] + 1], lists[n := lists[n] + [r]];
    forall x | x in nodes'
      ensures CountExact(parent, nodes', lists', held, x)
    {
      CountAfterList(parent, nodes, lists, held, n, r, x);
    }
  }

  lemma CountAfterList<N(!new), R>(parent: Parents<N>, nodes: Nodes<N>, lists: Lists<N, R>,
    held: multiset<N>, n: N, r: R, x: N)
    requires n in nodes && n in lists && x in nodes && CountExact(parent, nodes, lists, held, x)
    ensures CountExact(parent, nodes[n := nodes[n] + 1], lists[n := lists[n] + [r]], held, x)
  {
    ChildrenOfChanged(parent, nodes, n, nodes[n] + 1, x);
    hide Children;
  }

  // a rule taken off its list leaves its reference with the caller
  lemma BalancedUnlist<N(!new), R>(parent: Parents<N>, nodes: Nodes<N>, lists: Lists<N, R>,
    held: multiset<N>, n: N, rest: seq<R>)
    requires Balanced(parent, nodes, lists, held) && n in lists
    requires |rest| == |lists[n]| - 1
    ensures Balanced(parent, nodes, lists[n := rest], held + multiset{n})
  {
    forall x | x in nodes
      ensures CountExact(parent, nodes, lists[n := rest], held + multiset{n}, x)
    {
      assert CountExact(parent, nodes, lists, held, x);
    }
  }
}
