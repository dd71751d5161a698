/**
 The match registries of a bus (src/bus/match.c): linking, unlinking, flushing and looking
 up rules in the reference-counted trees of MatchForest.
 */
module MatchIndex {
  import opened Base
  import opened MatchKeys
  import opened RefTree
  import opened MatchForest
  import opened Counters

  class MatchIndex {
    var nodes: Nodes<Node>
    var lists: Lists<Node, Rule>
    var links: Links
    var counters: Counters

    // every counter of every node is exact, up to the references in held
    ghost predicate Holding(held: multiset<Node>)
      reads this
    {
      && Balanced(ParentOf, nodes, lists, held)
      && (forall n :: n in nodes && n.KeysNode? ==> n in lists)
      && (forall n :: n in lists ==> n.KeysNode?)
    }

    // between calls: no temporary reference is left, and all counters are exact
    ghost predicate Valid()
      reads this
    {
      && Holding(multiset{})
      && ListsLinks(lists, links)
      && CountsLinks(counters, links)
    }

    constructor ()
      ensures Valid() && links == map[]
    {
      nodes, lists, links := map[], map[], map[];
      counters := ZERO;
    }

    // the *_ref() functions
    method Ref(n: Node, ghost held: multiset<Node>)
      requires Holding(held) && n in nodes
      modifies this`nodes
      ensures Holding(held + multiset{n})
      ensures nodes == old(nodes)[n := old(nodes)[n] + 1]
    {
      BalancedRetain(ParentOf, nodes, lists, held, n);
      nodes := nodes[n := nodes[n] + 1];
    }

    // c_rbtree_find_slot() with *_ref(), or else *_new() and *_link()
    method Acquire(n: Node, ghost held: multiset<Node>)
      requires Holding(held)
      requires ParentOf(n).Some? ==> ParentOf(n).value in held
      modifies this`nodes, this`lists
      ensures Holding(held + multiset{n})
      ensures nodes.Keys == old(nodes.Keys) + {n}
      ensures SameRules(lists, old(lists))
    {
      hide Balanced;
      HeldIsLive(ParentOf, nodes, lists, held, n);
      if n in nodes {
        Ref(n, held);
      } else {
        if ParentOf(n).Some? {
          HeldIsLive(ParentOf, nodes, lists, held, ParentOf(n).value);
        }
        BalancedCreate(ParentOf, nodes, lists, held, n);
        nodes := Grown(ParentOf, nodes, n);
        if n.KeysNode? {
          BalancedEmptyList(ParentOf, nodes, lists, held + multiset{n}, n);
          lists := lists[n := []];
        }
      }
    }

    // c_rbnode_unlink() and free() of a node that lost its last reference
    method Free(n: Node, ghost held: multiset<Node>)
      requires Holding(held) && n in held && n in nodes && nodes[n] == 1
      modifies this`nodes, this`lists
      ensures Holding(Orphaned(ParentOf, held, n))
      ensures SameRules(lists, old(lists))
      ensures nodes == old(nodes) - {n}
    {
      hide Balanced;
      LastReference(ParentOf, nodes, lists, held, n);
      BalancedRemove(ParentOf, nodes, lists, held, n);
      nodes := nodes - {n};
      lists := lists - {n};
    }

    // the *_unref() functions: the last reference frees the node and passes on to its parent
    method Unref(n: Node, ghost held: multiset<Node>)
      requires Holding(held) && n in held
      modifies this`nodes, this`lists
      ensures Holding(held - multiset{n}) && n in old(nodes)
      ensures SameRules(lists, old(lists))
      ensures nodes.Keys <= old(nodes.Keys)
      ensures old(nodes)[n] > 1 ==> nodes.Keys == old(nodes.Keys)
      ensures old(nodes)[n] == 1 && (ParentOf(n).Some? ==> ParentOf(n).value in held) ==>
        nodes.Keys == old(nodes.Keys) - {n}
      decreases Depth(n)
    {
      hide Balanced;
      HeldIsLive(ParentOf, nodes, lists, held, n);
      if nodes[n] > 1 {
        BalancedDrop(ParentOf, nodes, lists, held, n);
        nodes := nodes[n := nodes[n] - 1];
        return;
      }
      if ParentOf(n).None? {
        Free(n, held);
        return;
      }
      ghost var p, held' := ParentOf(n).value, Orphaned(ParentOf, held, n);
      if p in held {
        ParentSurvives(ParentOf, nodes, lists, held, n, p);
      }
      assert held' - multiset{p} == held - multiset{n};
      Free(n, held);
      Unref(ParentOf(n).value, held');
    }

    // ---------------------------------------------------------------- link and unlink

    // match_rule_link_by_keys()
    method Append(r: Rule, link: Link, ghost held: multiset<Node>)
      requires Holding(held) && ListsLinks(lists, links) && r !in links
      requires NodeOf(link.tree, r.keys) in held
      modifies this`nodes, this`lists, this`links
      ensures Holding(held) && ListsLinks(lists, links)
      ensures links == old(links)[r := link]
    {
      hide Balanced;
      hide ListsLinks;
      hide CountsLinks;
      var n := NodeOf(link.tree, r.keys);
      ListsLinksAppend(lists, links, r, link);
      HeldIsLive(ParentOf, nodes, lists, held, n);
      BalancedList(ParentOf, nodes, lists, held, n, r);
      nodes := nodes[n := nodes[n] + 1];
      lists := lists[n := lists[n] + [r]];
      links := links[r := link];
    }

    // match_rule_link_by_path() and below, with the references dropped on the way out
    method Enlist(r: Rule, link: Link)
      requires Holding(multiset{}) && ListsLinks(lists, links) && r !in links
      modifies this`nodes, this`lists, this`links
      ensures Holding(multiset{}) && ListsLinks(lists, links)
      ensures links == old(links)[r := link]
    {
      hide Balanced;
      hide ListsLinks;
      hide CountsLinks;
      var path := PathNode(link.tree, Key(r.keys.path));
      var iface := InterfaceNode(link.tree, path.path, Key(r.keys.iface));
      var member := MemberNode(link.tree, path.path, iface.iface, Key(r.keys.member));
      var keys := NodeOf(link.tree, r.keys);
      Acquire(path, multiset{});
      Acquire(iface, multiset{} + multiset{path});
      Acquire(member, multiset{} + multiset{path} + multiset{iface});
      Acquire(keys, multiset{} + multiset{path} + multiset{iface} + multiset{member});
      ghost var held := multiset{} + multiset{path} + multiset{iface} + multiset{member} + multiset{keys};
      SameRulesLinks(old(lists), lists, links);
      Append(r, link, held);
      ghost var linked := lists;
      Release(path, iface, member, keys, held);
      assert held - multiset{keys} - multiset{member} - multiset{iface} - multiset{path} == multiset{};
      SameRulesLinks(linked, lists, links);
    }

    method Release(path: Node, iface: Node, member: Node, keys: Node, ghost held: multiset<Node>)
      requires Holding(held) && multiset{path} + multiset{iface} + multiset{member} + multiset{keys} <= held
      modifies this`nodes, this`lists
      ensures Holding(held - multiset{keys} - multiset{member} - multiset{iface} - multiset{path})
      ensures SameRules(lists, old(lists))
    {
      hide Balanced;
      Unref(keys, held);
      Unref(member, held - multiset{keys});
      Unref(iface, held - multiset{keys} - multiset{member});
      Unref(path, held - multiset{keys} - multiset{member} - multiset{iface});
    }

    // match_rule_unlink()
    method Delist(r: Rule, ghost held: multiset<Node>)
      requires Holding(held) && ListsLinks(lists, links) && r in links
      modifies this`nodes, this`lists, this`links
      ensures Holding(held) && ListsLinks(lists, links)
      ensures links == old(links) - {r}
      ensures nodes.Keys <= old(nodes.Keys)
      ensures Place(old(links), r) in held ==> nodes.Keys == old(nodes.Keys)
    {
      hide Balanced;
      hide ListsLinks;
      hide CountsLinks;
      var n := Place(links, r);
      ListsLinksRemove(lists, links, r);
      HeldIsLive(ParentOf, nodes, lists, held, n);
      ghost var rest := Without(lists[n], r);
      BalancedUnlist(ParentOf, nodes, lists, held, n, rest);
      lists := lists[n := Without(lists[n], r)];
      links := links - {r};
      ghost var unlinked := lists;
      HeldIsLive(ParentOf, nodes, lists, held + multiset{n}, n);
      Unref(n, held + multiset{n});
      assert held + multiset{n} - multiset{n} == held;
      SameRulesLinks(unlinked, lists, links);
    }

    // match_rule_link(): a rule that is linked already must be linked at the same place
    method LinkRule(r: Rule, link: Link)
      requires Valid()
      requires r in links ==> links[r] == link
      modifies this
      ensures Valid()
      ensures links == old(links)[r := link]
    {
      hide Balanced;
      hide ListsLinks;
      hide CountsLinks;
      if r in links {
        return;
      }
      CountsWith(counters, links, r, link);
      Enlist(r, link);
      if link.counted {
        counters := counters.Add(r.owner);
      }
    }

    // match_rule_unlink(); the caller may hold references into the trees
    method Unlink(r: Rule, ghost held: multiset<Node>)
      requires Holding(held) && ListsLinks(lists, links) && CountsLinks(counters, links)
      modifies this
      ensures Holding(held) && ListsLinks(lists, links) && CountsLinks(counters, links)
      ensures links == old(links) - {r}
      ensures nodes.Keys <= old(nodes.Keys)
      ensures (r in old(links) ==> Place(old(links), r) in held) ==> nodes.Keys == old(nodes.Keys)
    {
      hide Balanced;
      hide ListsLinks;
      hide CountsLinks;
      if r !in links {
        return;
      }
      CountsWithout(counters, links, r);
      if links[r].counted {
        counters := counters.Drop(r.owner);
      }
      Delist(r, held);
    }

    // ---------------------------------------------------------------- flush

    // match_registry_by_keys_flush()
    method FlushRules(n: Node, ghost held: multiset<Node>)
      requires Holding(held) && ListsLinks(lists, links) && CountsLinks(counters, links)
      requires n in held && n.KeysNode?
      modifies this
      ensures Holding(held) && ListsLinks(lists, links) && CountsLinks(counters, links)
      ensures links == LinksExcept(old(links), {n})
      ensures nodes.Keys == old(nodes.Keys)
    {
      hide Balanced;
      hide ListsLinks;
      hide CountsLinks;
      var rules := RulesAt(lists, n);
      assert Elements(rules[..0]) == {};
      hide Elements;
      RulesBelowKeysNode(lists, links, n);
      for i := 0 to |rules|
        invariant Holding(held) && ListsLinks(lists, links) && CountsLinks(counters, links)
        invariant nodes.Keys == old(nodes.Keys)
        invariant links == old(links) - Elements(rules[..i])
      {
        assert rules[i] in rules && rules[i] in links ==> Place(links, rules[i]) == n;
        Unlink(rules[i], held);
        ElementsSnoc(rules, i);
      }
      assert rules[..|rules|] == rules;
    }

    // the loops of the *_flush() functions over sibling nodes
    method FlushAll(parent: Option<Node>, siblings: set<Node>, ghost held: multiset<Node>)
      requires Holding(held) && ListsLinks(lists, links) && CountsLinks(counters, links)
      requires forall c :: c in siblings ==> c in nodes && ParentOf(c) == parent
      requires Above(held, if parent.Some? then Depth(parent.value) + 1 else 0)
      requires parent.Some? ==> parent.value in held
      modifies this
      ensures Holding(held) && ListsLinks(lists, links) && CountsLinks(counters, links)
      ensures nodes.Keys == NodesExcept(old(nodes.Keys), siblings)
      ensures links == LinksExcept(old(links), siblings)
      decreases (if parent.Some? then 2 - Depth(parent.value) else 3), 2
    {
      hide Balanced;
      hide ListsLinks;
      hide CountsLinks;
      hide NodesExcept;
      hide LinksExcept;
      ghost var done: set<Node> := {};
      var todo := siblings;
      ExceptNone(nodes.Keys, links);
      while todo != {}
        invariant done !! todo && done + todo == siblings
        invariant Holding(held) && ListsLinks(lists, links) && CountsLinks(counters, links)
        invariant nodes.Keys == NodesExcept(old(nodes.Keys), done)
        invariant links == LinksExcept(old(links), done)
        invariant forall c :: c in todo ==> c in nodes
      {
        var c :| c in todo;
        ExceptMore(old(nodes.Keys), old(links), done, c);
        ghost var before := nodes.Keys;
        FlushNode(c, held);
        SiblingsStay(before, todo, c);
        todo := todo - {c};
        done := done + {c};
      }
      assert done == siblings;
    }

    // match_registry_by_*_flush()
    method FlushBelow(n: Node, ghost held: multiset<Node>)
      requires Holding(held) && ListsLinks(lists, links) && CountsLinks(counters, links)
      requires n in nodes && n in held && Above(held, Depth(n) + 1)
      modifies this
      ensures Holding(held) && ListsLinks(lists, links) && CountsLinks(counters, links)
      ensures nodes.Keys == NodesExcept(old(nodes.Keys), {n}) + {n}
      ensures Children(ParentOf, nodes, n) == {} && RulesAt(lists, n) == []
      ensures links == LinksExcept(old(links), {n})
      decreases 3 - Depth(n), 0
    {
      hide Balanced;
      hide ListsLinks;
      hide CountsLinks;
      hide NodesExcept;
      hide LinksExcept;
      if n.KeysNode? {
        FlushRules(n, held);
        KeysNodeAlone(old(nodes), n);
        KeysNodeAlone(nodes, n);
      } else {
        var children := set c | c in nodes && ParentOf(c) == Some(n);
        assert children == Children(ParentOf, nodes, n);
        ChildrenCover(nodes, lists, held, links, n);
        FlushAll(Some(n), children, held);
        assert Children(ParentOf, nodes, n) == {};
      }
      NoRulesLeft(lists, old(links), n);
    }

    method FlushNode(n: Node, ghost held: multiset<Node>)
      requires Holding(held) && ListsLinks(lists, links) && CountsLinks(counters, links)
      requires n in nodes && Above(held, Depth(n))
      requires ParentOf(n).Some? ==> ParentOf(n).value in held
      modifies this
      ensures Holding(held) && ListsLinks(lists, links) && CountsLinks(counters, links)
      ensures nodes.Keys == NodesExcept(old(nodes.Keys), {n})
      ensures links == LinksExcept(old(links), {n})
      decreases 3 - Depth(n), 1
    {
      hide Balanced;
      hide ListsLinks;
      hide CountsLinks;
      hide NodesExcept;
      hide LinksExcept;
      ghost var held' := held + multiset{n};
      ExceptsItself(nodes.Keys, n);
      Ref(n, held);
      assert nodes.Keys == old(nodes.Keys);
      FlushBelow(n, held');
      EmptyNode(nodes, lists, held', n);
      ghost var emptied := lists;
      Unref(n, held');
      assert held' - multiset{n} == held;
      SameRulesLinks(emptied, lists, links);
    }

    // match_registry_flush() of one of the two trees
    method FlushTree(t: Tree)
      requires Valid()
      modifies this
      ensures Valid()
      ensures links == map r | r in old(links) && old(links)[r].tree != t :: old(links)[r]
    {
      hide Balanced;
      hide ListsLinks;
      hide CountsLinks;
      hide LinksExcept;
      hide NodesExcept;
      var roots := set n | n in nodes && n.PathNode? && n.tree == t;
      RootsCover(nodes, lists, links, t, roots);
      FlushAll(None, roots, multiset{});
    }

    // match_registry_flush()
    method Flush(reg: RegistryId)
      requires Valid()
      modifies this
      ensures Valid()
      ensures links == Outside(old(links), reg)
      ensures forall n :: n in nodes ==> n.tree.registry != reg
    {
      FlushTree(Tree(reg, false));
      FlushTree(Tree(reg, true));
      NoNodesOutside();
    }

    // every node of a registry disappears with its last rule
    lemma NoNodesOutside()
      requires Valid()
      ensures forall n :: n in nodes ==> exists r :: r in links && links[r].tree == n.tree
    {
      forall n | n in nodes ensures exists r :: r in links && links[r].tree == n.tree {
        NodeHasRule(nodes, lists, links, n);
        var r :| r in links && Under(Place(links, r), n);
        SameTree(Place(links, r), n);
      }
    }

    // match_rule_unlink()
    method UnlinkRule(r: Rule)
      requires Valid()
      modifies this
      ensures Valid()
      ensures links == old(links) - {r}
    {
      Unlink(r, multiset{});
    }

    // ---------------------------------------------------------------- lookup

    // match_registry_by_keys_get_destinations(): an owner is linked only once
    method CollectRules(n: Node, m: MessageMetadata, destinations: seq<nat>) returns (r: seq<nat>)
      requires Valid() && n.KeysNode? && Matches(n.keys, m)
      requires NoDuplicates(destinations)
      ensures Extends(destinations, r, Below(links, n, m))
    {
      BelowKeysNode(lists, links, n, m);
      r := destinations;
      ExtendsNone(r);
      var rules := RulesAt(lists, n);
      assert OwnersOf(rules[..0]) == {};
      assert rules[..|rules|] == rules;
      hide OwnersOf;
      hide Elements;
      hide Below;
      for i := 0 to |rules|
        invariant Extends(destinations, r, OwnersOf(rules[..i]))
      {
        OwnersOfSnoc(rules, i);
        ghost var before := r;
        AddOnceElements(r, rules[i].owner);
        r := AddOnce(r, rules[i].owner);
        ExtendsChain(destinations, before, r, OwnersOf(rules[..i]), {rules[i].owner});
      }
    }

    // match_registry_by_member_get_destinations(), in any iteration order
    method CollectMember(n: Node, m: MessageMetadata, destinations: seq<nat>) returns (r: seq<nat>)
      requires Valid() && n.MemberNode?
      requires NoDuplicates(destinations)
      ensures Extends(destinations, r, Below(links, n, m))
    {
      hide *;
      r := destinations;
      ExtendsNone(r);
      var todo := set c | c in nodes && ParentOf(c) == Some(n);
      MemberChildren(n, todo, m);
      ghost var all, done: set<Node> := todo, {};
      while todo != {}
        invariant done !! todo && done + todo == all
        invariant forall c :: c in todo ==> c.KeysNode?
        invariant Extends(destinations, r, BelowAny(links, done, m))
      {
        var c :| c in todo;
        BelowMore(links, done, c, m);
        r := CollectKeys(c, m, destinations, r, BelowAny(links, done, m));
        todo := todo - {c};
        done := done + {c};
      }
      assert done == all;
    }

    lemma MemberChildren(n: Node, children: set<Node>, m: MessageMetadata)
      requires Valid() && n.MemberNode?
      requires children == set c | c in nodes && ParentOf(c) == Some(n)
      ensures Below(links, n, m) == BelowAny(links, children, m) && BelowAny(links, {}, m) == {}
      ensures forall c :: c in children ==> c.KeysNode?
    {
      hide Balanced;
      hide ListsLinks;
      hide CountsLinks;
      hide Below;
      hide BelowAny;
      assert children == Children(ParentOf, nodes, n);
      BelowChildren(nodes, lists, links, n, m);
      BelowMore(links, {}, n, m);
    }

    method CollectKeys(n: Node, m: MessageMetadata, ghost first: seq<nat>, destinations: seq<nat>,
      ghost found: set<nat>)
      returns (r: seq<nat>)
      requires Valid() && n.KeysNode?
      requires Extends(first, destinations, found)
      ensures Extends(first, r, found + Below(links, n, m))
    {
      hide Valid;
      hide Below;
      hide Elements;
      var matches := MatchMetadata(n.keys, m);
      if matches {
        r := CollectRules(n, m, destinations);
      } else {
        BelowMismatch(links, n, m);
        r := destinations;
        ExtendsNone(r);
      }
      ExtendsChain(first, destinations, r, found, Below(links, n, m));
    }

    // match_registry_by_interface_get_destinations()
    method CollectInterface(n: Node, m: MessageMetadata, destinations: seq<nat>) returns (r: seq<nat>)
      requires Valid() && n.InterfaceNode?
      requires NoDuplicates(destinations)
      ensures Extends(destinations, r, Below(links, n, m))
      decreases 3 - Depth(n), 0
    {
      MemberLookups(links, n, m);
      r := FindTwice(MemberNode(n.tree, n.path, n.iface, ""), m.member.Some?,
                     MemberNode(n.tree, n.path, n.iface, Key(m.member)), m, destinations);
    }

    // match_registry_by_path_get_destinations()
    method CollectPath(n: Node, m: MessageMetadata, destinations: seq<nat>) returns (r: seq<nat>)
      requires Valid() && n.PathNode?
      requires NoDuplicates(destinations)
      ensures Extends(destinations, r, Below(links, n, m))
      decreases 3 - Depth(n), 0
    {
      InterfaceLookups(links, n, m);
      r := FindTwice(InterfaceNode(n.tree, n.path, ""), m.iface.Some?,
                     InterfaceNode(n.tree, n.path, Key(m.iface)), m, destinations);
    }

    // match_registry_get_destinations(): the trees find what the linear scan finds
    method GetDestinations(t: Tree, m: MessageMetadata, destinations: seq<nat>) returns (r: seq<nat>)
      requires Valid()
      requires NoDuplicates(destinations)
      ensures Extends(destinations, r, Subscribers(links, t, m))
    {
      PathLookups(links, t, m);
      r := FindTwice(PathNode(t, ""), m.path.Some?, PathNode(t, Key(m.path)), m, destinations);
    }

    // the two lookups of a level: for rules without the string, then for the message's one
    method FindTwice(c: Node, present: bool, d: Node, m: MessageMetadata, destinations: seq<nat>) returns (r: seq<nat>)
      requires Valid() && !c.KeysNode? && !d.KeysNode? && Depth(c) == Depth(d)
      requires NoDuplicates(destinations)
      ensures Extends(destinations, r, Below(links, c, m) + if present then Below(links, d, m) else {})
      decreases 3 - Depth(c), 2
    {
      hide *;
      r := Find(c, m, destinations);
      if present {
        ghost var r0 := r;
        Distinct(destinations, r, Below(links, c, m));
        r := Find(d, m, r);
        ExtendsChain(destinations, r0, r, Below(links, c, m), Below(links, d, m));
      } else {
        assert Below(links, c, m) + {} == Below(links, c, m);
      }
    }

    // c_rbtree_find_entry() and the step down
    method Find(n: Node, m: MessageMetadata, destinations: seq<nat>) returns (r: seq<nat>)
      requires Valid() && !n.KeysNode?
      requires NoDuplicates(destinations)
      ensures Extends(destinations, r, Below(links, n, m))
      decreases 3 - Depth(n), 1
    {
      hide *;
      if n !in nodes {
        BelowMissing(n, m);
        r := destinations;
        ExtendsNone(r);
      } else if n.PathNode? {
        r := CollectPath(n, m, destinations);
      } else if n.InterfaceNode? {
        r := CollectInterface(n, m, destinations);
      } else {
        r := CollectMember(n, m, destinations);
      }
    }

    lemma BelowMissing(n: Node, m: MessageMetadata)
      requires Valid() && n !in nodes
      ensures Below(links, n, m) == {}
    {
      BelowAbsent(nodes, lists, links, n, m);
    }
  }
}
