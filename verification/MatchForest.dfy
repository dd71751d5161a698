/**
 The trees of the match registries (src/bus/match.c) and the linear scan they stand for.
 Every registry keeps its rules in two trees (subscriptions, monitors) of four levels:
 path, interface, member, keys. A node is identified by its tree and the keys on the way to
 it, since a tree has one node per key.
 */
module MatchForest {
  import opened Base
  import opened MatchKeys
  import opened RefTree
  import opened Counters

  datatype RegistryId =
    | Wildcard                        // bus->wildcard_matches
    | Driver                          // bus->sender_matches
    | NameSender(name: string)        // name->sender_matches
    | NameOwnerChanged(name: string)  // name->name_owner_changed_matches
    | PeerSender(id: nat)             // peer->sender_matches
    | PeerOwnerChanged(id: nat)       // peer->name_owner_changed_matches

  datatype Tree = Tree(registry: RegistryId, monitor: bool)

  datatype Node =
    | PathNode(tree: Tree, path: string)
    | InterfaceNode(tree: Tree, path: string, iface: string)
    | MemberNode(tree: Tree, path: string, iface: string, member: string)
    | KeysNode(tree: Tree, path: string, iface: string, member: string, keys: RuleKeys)

  // A rule of an owner. An owner's rule_tree holds no two rules with equal keys.
  datatype Rule = Rule(owner: nat, keys: RuleKeys)

  // rule->registry and rule->counters of a linked rule
  datatype Link = Link(tree: Tree, counted: bool)

  type Links = map<Rule, Link>

  function ParentOf(n: Node): Option<Node> {
    match n
    case PathNode(_, _) => None
    case InterfaceNode(t, p, i) => Some(PathNode(t, p))
    case MemberNode(t, p, i, m) => Some(InterfaceNode(t, p, i))
    case KeysNode(t, p, i, m, k) => Some(MemberNode(t, p, i, m))
  }

  function Depth(n: Node): nat {
    match n
    case PathNode(_, _) => 0
    case InterfaceNode(_, _, _) => 1
    case MemberNode(_, _, _, _) => 2
    case KeysNode(_, _, _, _, _) => 3
  }

  // x is n or stands below it
  predicate Under(x: Node, n: Node)
    decreases Depth(x)
  {
    x == n || (ParentOf(x).Some? && Under(ParentOf(x).value, n))
  }

  // the key "" stands for an absent string
  function Key(s: Option<string>): string {
    if s.None? then "" else s.value
  }

  function NodeOf(t: Tree, k: RuleKeys): Node {
    KeysNode(t, Key(k.path), Key(k.iface), Key(k.member), k)
  }

  // the node of a linked rule
  function Place(links: Links, r: Rule): Node
    requires r in links
  {
    NodeOf(links[r].tree, r.keys)
  }

  // ---------------------------------------------------------------- the simple form

  // The owners that a linear scan over all linked rules of a tree finds.
  ghost function Subscribers(links: Links, t: Tree, m: MessageMetadata): set<nat> {
    set r | r in links && links[r].tree == t && Matches(r.keys, m) :: r.owner
  }

  // ... and over the rules below one node
  ghost function Below(links: Links, n: Node, m: MessageMetadata): set<nat> {
    set r | r in links && Under(Place(links, r), n) && Matches(r.keys, m) :: r.owner
  }

  ghost predicate UnderAny(x: Node, tops: set<Node>) {
    exists c :: c in tops && Under(x, c)
  }

  // all references held are on levels above the given one
  ghost predicate Above(held: multiset<Node>, depth: nat) {
    forall h :: h in held ==> Depth(h) < depth
  }

  // what is left when everything at and below some nodes goes away
  ghost function NodesExcept(nodes: set<Node>, tops: set<Node>): set<Node> {
    set x | x in nodes && !UnderAny(x, tops)
  }

  ghost function LinksExcept(links: Links, tops: set<Node>): Links {
    map r | r in links && !UnderAny(Place(links, r), tops) :: links[r]
  }

  // The links that survive a flush of one registry.
  function Outside(links: Links, reg: RegistryId): Links {
    map r | r in links && links[r].tree.registry != reg :: links[r]
  }

  // the subscriptions that count, with their owners
  ghost function Counted(links: Links): map<Rule, nat> {
    map r | r in links && links[r].counted :: r.owner
  }

  ghost predicate CountsLinks(c: Counters, links: Links) {
    c.Exact(Counted(links))
  }

  lemma CountsWith(c: Counters, links: Links, r: Rule, link: Link)
    requires CountsLinks(c, links) && r !in links
    ensures CountsLinks(if link.counted then c.Add(r.owner) else c, links[r := link])
  {
    CountedWith(links, r, link);
    if link.counted {
      AddExact(c, Counted(links), r, r.owner);
    }
  }

  lemma CountsWithout(c: Counters, links: Links, r: Rule)
    requires CountsLinks(c, links) && r in links
    ensures links[r].counted ==> c.total > 0 && c.Of(r.owner) > 0
    ensures CountsLinks(if links[r].counted then c.Drop(r.owner) else c, links - {r})
  {
    CountedWithout(links, r);
    if links[r].counted {
      DropExact(c, Counted(links), r);
    }
  }

  lemma CountedWith(links: Links, r: Rule, link: Link)
    requires r !in links
    ensures Counted(links[r := link]) == if link.counted then Counted(links)[r := r.owner] else Counted(links)
    ensures r !in Counted(links)
  {
  }

  lemma CountedWithout(links: Links, r: Rule)
    requires r in links
    ensures Counted(links - {r}) == if links[r].counted then Counted(links) - {r} else Counted(links)
    ensures links[r].counted ==> r in Counted(links) && Counted(links)[r] == r.owner
  {
  }

  // The rule list of a node holds exactly the rules linked there, each once.
  ghost predicate ListExact(lists: Lists<Node, Rule>, links: Links, n: Node) {
    && (forall r :: r in RulesAt(lists, n) <==> r in links && Place(links, r) == n)
    && NoDuplicates(RulesAt(lists, n))
  }

  ghost predicate ListsLinks(lists: Lists<Node, Rule>, links: Links) {
    forall n :: ListExact(lists, links, n)
  }

  ghost predicate SameRules(a: Lists<Node, Rule>, b: Lists<Node, Rule>) {
    forall n :: RulesAt(a, n) == RulesAt(b, n)
  }

  lemma SameRulesLinks(a: Lists<Node, Rule>, b: Lists<Node, Rule>, links: Links)
    requires SameRules(a, b) && ListsLinks(a, links)
    ensures ListsLinks(b, links)
  {
    forall n ensures ListExact(b, links, n) {
      assert ListExact(a, links, n);
    }
  }

  lemma ListsLinksAppend(lists: Lists<Node, Rule>, links: Links, r: Rule, link: Link)
    requires ListsLinks(lists, links) && r !in links
    ensures ListsLinks(lists[NodeOf(link.tree, r.keys) := RulesAt(lists, NodeOf(link.tree, r.keys)) + [r]],
      links[r := link])
  {
    var lists' := lists[NodeOf(link.tree, r.keys) := RulesAt(lists, NodeOf(link.tree, r.keys)) + [r]];
    var links' := links[r := link];
    forall n ensures ListExact(lists', links', n) {
      assert ListExact(lists, links, n);
    }
  }

  lemma ListsLinksRemove(lists: Lists<Node, Rule>, links: Links, r: Rule)
    requires ListsLinks(lists, links) && r in links
    ensures Place(links, r) in lists && r in lists[Place(links, r)]
    ensures ListsLinks(lists[Place(links, r) := Without(RulesAt(lists, Place(links, r)), r)], links - {r})
  {
    var place := Place(links, r);
    assert ListExact(lists, links, place);
    WithoutMembers(RulesAt(lists, place), r);
    var lists' := lists[place := Without(RulesAt(lists, place), r)];
    var links' := links - {r};
    forall n ensures ListExact(lists', links', n) {
      assert ListExact(lists, links, n);
    }
  }

  ghost function OwnersOf(rules: seq<Rule>): set<nat> {
    set r | r in rules :: r.owner
  }

  lemma OwnersOfSnoc(rules: seq<Rule>, i: nat)
    requires i < |rules|
    ensures OwnersOf(rules[..i + 1]) == OwnersOf(rules[..i]) + {rules[i].owner}
  {
    assert rules[..i + 1] == rules[..i] + [rules[i]];
  }

  // ---------------------------------------------------------------- structure

  lemma {:induction false} UnderIsDeeper(x: Node, n: Node)
    requires Under(x, n)
    ensures x == n || Depth(n) < Depth(x)
    decreases Depth(x)
  {
    if x != n {
      UnderIsDeeper(ParentOf(x).value, n);
    }
  }

  lemma RulesBelowKeysNode(lists: Lists<Node, Rule>, links: Links, n: Node)
    requires ListsLinks(lists, links) && n.KeysNode?
    ensures LinksExcept(links, {n}) == links - Elements(RulesAt(lists, n))
    ensures forall r :: r in RulesAt(lists, n) ==> r in links && Place(links, r) == n
  {
    assert ListExact(lists, links, n);
    forall r | r in links
      ensures UnderAny(Place(links, r), {n}) <==> r in RulesAt(lists, n)
    {
      if UnderAny(Place(links, r), {n}) {
        UnderIsDeeper(Place(links, r), n);
      }
    }
  }

  lemma ExceptMore(nodes: set<Node>, links: Links, tops: set<Node>, c: Node)
    ensures NodesExcept(NodesExcept(nodes, tops), {c}) == NodesExcept(nodes, tops + {c})
    ensures LinksExcept(LinksExcept(links, tops), {c}) == LinksExcept(links, tops + {c})
  {
    forall x ensures UnderAny(x, tops + {c}) <==> UnderAny(x, tops) || UnderAny(x, {c}) {
    }
  }

  lemma ExceptNone(nodes: set<Node>, links: Links)
    ensures NodesExcept(nodes, {}) == nodes && LinksExcept(links, {}) == links
  {
  }

  lemma SiblingsStay(nodes: set<Node>, siblings: set<Node>, c: Node)
    requires siblings <= nodes && c in siblings
    requires forall d :: d in siblings ==> ParentOf(d) == ParentOf(c)
    ensures siblings - {c} <= NodesExcept(nodes, {c})
  {
    forall d | d in siblings - {c} ensures !UnderAny(d, {c}) {
      if UnderAny(d, {c}) {
        UnderIsDeeper(d, c);
        assert false;
      }
    }
  }

  lemma {:induction false} BelowAChild(nodes: Nodes<Node>, lists: Lists<Node, Rule>, held: multiset<Node>, x: Node,
    n: Node)
    requires Balanced(ParentOf, nodes, lists, held) && x in nodes && Under(x, n) && x != n
    ensures exists c :: c in Children(ParentOf, nodes, n) && Under(x, c)
    decreases Depth(x)
  {
    var p := ParentOf(x).value;
    if p == n {
      assert x in Children(ParentOf, nodes, n) && Under(x, x);
    } else {
      BelowAChild(nodes, lists, held, p, n);
      var c :| c in Children(ParentOf, nodes, n) && Under(p, c);
      assert Under(x, c);
    }
  }

  lemma {:induction false} BelowTheParent(x: Node, c: Node, n: Node)
    requires Under(x, c) && ParentOf(c) == Some(n)
    ensures Under(x, n) && x != n
    decreases Depth(x)
  {
    if x != c {
      BelowTheParent(ParentOf(x).value, c, n);
      UnderIsDeeper(ParentOf(x).value, n);
    } else {
      assert Under(ParentOf(c).value, n);
    }
  }

  // below a node means at or below one of its children
  lemma ChildrenCover(nodes: Nodes<Node>, lists: Lists<Node, Rule>, held: multiset<Node>, links: Links, n: Node)
    requires Balanced(ParentOf, nodes, lists, held) && ListsLinks(lists, links) && !n.KeysNode?
    ensures NodesExcept(nodes.Keys, {n}) == NodesExcept(nodes.Keys, Children(ParentOf, nodes, n)) - {n}
    ensures LinksExcept(links, {n}) == LinksExcept(links, Children(ParentOf, nodes, n))
    ensures n in nodes ==> n in NodesExcept(nodes.Keys, Children(ParentOf, nodes, n))
    ensures NodesExcept(nodes.Keys, Children(ParentOf, nodes, n)) <= nodes.Keys - Children(ParentOf, nodes, n)
  {
    ChildrenCoverNode(nodes, lists, held, n);
    var cs := Children(ParentOf, nodes, n);
    forall r | r in links ensures Place(links, r) in nodes && Place(links, r) != n {
      assert ListExact(lists, links, Place(links, r));
    }
    assert forall x :: x in cs ==> Under(x, x);
    assert Under(n, n);
  }

  lemma ChildrenCoverNode(nodes: Nodes<Node>, lists: Lists<Node, Rule>, held: multiset<Node>, n: Node)
    requires Balanced(ParentOf, nodes, lists, held)
    ensures forall x :: UnderAny(x, Children(ParentOf, nodes, n)) ==> UnderAny(x, {n}) && x != n
    ensures forall x :: x in nodes && x != n && UnderAny(x, {n}) ==> UnderAny(x, Children(ParentOf, nodes, n))
  {
    var cs := Children(ParentOf, nodes, n);
    forall x ensures UnderAny(x, cs) ==> UnderAny(x, {n}) && x != n {
      if UnderAny(x, cs) {
        var c :| c in cs && Under(x, c);
        BelowTheParent(x, c, n);
      }
    }
    forall x | x in nodes && x != n ensures UnderAny(x, {n}) ==> UnderAny(x, cs) {
      if UnderAny(x, {n}) {
        BelowAChild(nodes, lists, held, x, n);
      }
    }
  }

  // what holds a node once everything below it is gone
  lemma EmptyNode(nodes: Nodes<Node>, lists: Lists<Node, Rule>, held: multiset<Node>, n: Node)
    requires Balanced(ParentOf, nodes, lists, held) && n in nodes
    requires Children(ParentOf, nodes, n) == {} && RulesAt(lists, n) == []
    ensures nodes[n] == held[n]
  {
    assert CountExact(ParentOf, nodes, lists, held, n);
  }

  lemma KeysNodeAlone(nodes: Nodes<Node>, n: Node)
    requires n.KeysNode?
    ensures Children(ParentOf, nodes, n) == {}
    ensures NodesExcept(nodes.Keys, {n}) == nodes.Keys - {n}
  {
    forall x ensures UnderAny(x, {n}) <==> x == n {
      if UnderAny(x, {n}) {
        UnderIsDeeper(x, n);
      }
      assert Under(n, n);
    }
  }

  lemma NoRulesLeft(lists: Lists<Node, Rule>, links: Links, n: Node)
    requires ListsLinks(lists, LinksExcept(links, {n}))
    ensures RulesAt(lists, n) == []
  {
    assert ListExact(lists, LinksExcept(links, {n}), n);
    if RulesAt(lists, n) != [] {
      var r := RulesAt(lists, n)[0];
      assert r in LinksExcept(links, {n}) && Under(n, n);
    }
  }

  lemma ExceptsItself(nodes: set<Node>, n: Node)
    ensures n !in NodesExcept(nodes, {n})
  {
    assert Under(n, n);
  }

  lemma BelowKeysNode(lists: Lists<Node, Rule>, links: Links, n: Node, m: MessageMetadata)
    requires ListsLinks(lists, links) && n.KeysNode? && Matches(n.keys, m)
    ensures Below(links, n, m) == OwnersOf(RulesAt(lists, n))
  {
    assert ListExact(lists, links, n);
    forall r | r in links && Under(Place(links, r), n)
      ensures Place(links, r) == n
    {
      UnderIsDeeper(Place(links, r), n);
    }
  }

  // Between calls every node of a tree has a linked rule at or below it.
  lemma {:induction false} NodeHasRule(nodes: Nodes<Node>, lists: Lists<Node, Rule>, links: Links, n: Node)
    requires Balanced(ParentOf, nodes, lists, multiset{}) && ListsLinks(lists, links) && n in nodes
    ensures exists r :: r in links && Under(Place(links, r), n)
    decreases 3 - Depth(n)
  {
    hide Balanced;
    hide ListsLinks;
    hide Under;
    AliveForAReason(ParentOf, nodes, lists, n);
    if RulesAt(lists, n) != [] {
      FirstRuleIsUnder(lists, links, n);
    } else {
      var c :| c in Children(ParentOf, nodes, n);
      NodeHasRule(nodes, lists, links, c);
      var r :| r in links && Under(Place(links, r), c);
      BelowTheParent(Place(links, r), c, n);
    }
  }

  lemma FirstRuleIsUnder(lists: Lists<Node, Rule>, links: Links, n: Node)
    requires ListsLinks(lists, links) && RulesAt(lists, n) != []
    ensures var r := RulesAt(lists, n)[0]; r in links && Under(Place(links, r), n)
  {
    assert ListExact(lists, links, n);
    assert RulesAt(lists, n)[0] in RulesAt(lists, n);
  }

  lemma {:induction false} SameTree(x: Node, n: Node)
    requires Under(x, n)
    ensures x.tree == n.tree
    decreases Depth(x)
  {
    if x != n {
      SameTree(ParentOf(x).value, n);
    }
  }

  lemma UnderItsPath(n: Node)
    ensures Under(n, PathNode(n.tree, n.path))
    decreases Depth(n)
  {
    if !n.PathNode? {
      UnderItsPath(ParentOf(n).value);
    }
  }

  // the path nodes of a tree, and everything below them
  lemma RootsCover(nodes: Nodes<Node>, lists: Lists<Node, Rule>, links: Links, t: Tree, roots: set<Node>)
    requires Balanced(ParentOf, nodes, lists, multiset{}) && ListsLinks(lists, links)
    requires roots == set n | n in nodes && n.PathNode? && n.tree == t
    ensures LinksExcept(links, roots) == map r | r in links && links[r].tree != t :: links[r]
  {
    forall r | r in links
      ensures UnderAny(Place(links, r), roots) <==> links[r].tree == t
    {
      var place := Place(links, r);
      if UnderAny(place, roots) {
        var c :| c in roots && Under(place, c);
        SameTree(place, c);
      }
      assert ListExact(lists, links, place);
      UnderItsPath(place);
      PathOfLiveNode(nodes, lists, place);
    }
  }

  lemma PathOfLiveNode(nodes: Nodes<Node>, lists: Lists<Node, Rule>, n: Node)
    requires Balanced(ParentOf, nodes, lists, multiset{}) && n in nodes
    ensures PathNode(n.tree, n.path) in nodes
    decreases Depth(n)
  {
    if !n.PathNode? {
      PathOfLiveNode(nodes, lists, ParentOf(n).value);
    }
  }

  // ---------------------------------------------------------------- lookup

  // the owners found at or below some nodes
  ghost function BelowAny(links: Links, tops: set<Node>, m: MessageMetadata): set<nat> {
    set r | r in links && UnderAny(Place(links, r), tops) && Matches(r.keys, m) :: r.owner
  }

  lemma BelowMore(links: Links, tops: set<Node>, c: Node, m: MessageMetadata)
    ensures BelowAny(links, tops + {c}, m) == BelowAny(links, tops, m) + Below(links, c, m)
    ensures BelowAny(links, {}, m) == {}
  {
    forall x ensures UnderAny(x, tops + {c}) <==> UnderAny(x, tops) || Under(x, c) {
    }
  }

  lemma BelowMismatch(links: Links, n: Node, m: MessageMetadata)
    requires n.KeysNode? && !Matches(n.keys, m)
    ensures Below(links, n, m) == {}
  {
    forall r | r in links && Under(Place(links, r), n)
      ensures r.keys == n.keys
    {
      UnderIsDeeper(Place(links, r), n);
    }
  }

  lemma BelowChildren(nodes: Nodes<Node>, lists: Lists<Node, Rule>, links: Links, n: Node, m: MessageMetadata)
    requires Balanced(ParentOf, nodes, lists, multiset{}) && ListsLinks(lists, links) && !n.KeysNode?
    ensures Below(links, n, m) == BelowAny(links, Children(ParentOf, nodes, n), m)
  {
    ChildrenCover(nodes, lists, multiset{}, links, n);
    hide Balanced;
    hide ListsLinks;
    hide Children;
    hide Under;
    var cs := Children(ParentOf, nodes, n);
    forall r | r in links ensures Under(Place(links, r), n) <==> UnderAny(Place(links, r), cs) {
      assert r in LinksExcept(links, {n}) <==> r in LinksExcept(links, cs);
      assert UnderAny(Place(links, r), {n}) <==> Under(Place(links, r), n);
    }
  }

  // a node that is not there has nothing below it
  lemma BelowAbsent(nodes: Nodes<Node>, lists: Lists<Node, Rule>, links: Links, n: Node, m: MessageMetadata)
    requires Balanced(ParentOf, nodes, lists, multiset{}) && ListsLinks(lists, links) && n !in nodes
    ensures Below(links, n, m) == {}
  {
    forall r | r in links ensures !Under(Place(links, r), n) {
      assert ListExact(lists, links, Place(links, r));
      if Under(Place(links, r), n) {
        AncestorAlive(nodes, lists, Place(links, r), n);
      }
    }
  }

  lemma {:induction false} AncestorAlive(nodes: Nodes<Node>, lists: Lists<Node, Rule>, x: Node, n: Node)
    requires Balanced(ParentOf, nodes, lists, multiset{}) && x in nodes && Under(x, n)
    ensures n in nodes
    decreases Depth(x)
  {
    if x != n {
      AncestorAlive(nodes, lists, ParentOf(x).value, n);
    }
  }

  // where the node of a rule stands
  lemma UnderPrefix(t: Tree, k: RuleKeys, u: Tree, p: string, i: string, m: string)
    ensures Under(NodeOf(t, k), PathNode(u, p)) <==> t == u && Key(k.path) == p
    ensures Under(NodeOf(t, k), InterfaceNode(u, p, i)) <==> t == u && Key(k.path) == p && Key(k.iface) == i
    ensures Under(NodeOf(t, k), MemberNode(u, p, i, m)) <==>
      t == u && Key(k.path) == p && Key(k.iface) == i && Key(k.member) == m
  {
    var keys := NodeOf(t, k);
    var member := MemberNode(t, Key(k.path), Key(k.iface), Key(k.member));
    var iface := InterfaceNode(t, Key(k.path), Key(k.iface));
    var path := PathNode(t, Key(k.path));
    assert ParentOf(keys) == Some(member) && ParentOf(member) == Some(iface) && ParentOf(iface) == Some(path);
    assert forall n :: Under(path, n) <==> n == path;
    assert forall n :: Under(iface, n) <==> n == iface || Under(path, n);
    assert forall n :: Under(member, n) <==> n == member || Under(iface, n);
    assert forall n :: Under(keys, n) <==> n == keys || Under(member, n);
  }

  // The two lookups of a level, for "" and for the string of the message, miss no rule that
  // matches: it stands at one of the two keys.
  lemma MemberLookups(links: Links, n: Node, m: MessageMetadata)
    requires n.InterfaceNode?
    ensures Below(links, n, m) == Below(links, MemberNode(n.tree, n.path, n.iface, ""), m)
      + if m.member.Some? then Below(links, MemberNode(n.tree, n.path, n.iface, m.member.value), m) else {}
  {
    forall r | r in links && Matches(r.keys, m)
      ensures Under(Place(links, r), n) <==>
        || Under(Place(links, r), MemberNode(n.tree, n.path, n.iface, ""))
        || (m.member.Some? && Under(Place(links, r), MemberNode(n.tree, n.path, n.iface, m.member.value)))
    {
      UnderPrefix(links[r].tree, r.keys, n.tree, n.path, n.iface, "");
      UnderPrefix(links[r].tree, r.keys, n.tree, n.path, n.iface, Key(m.member));
    }
  }

  lemma InterfaceLookups(links: Links, n: Node, m: MessageMetadata)
    requires n.PathNode?
    ensures Below(links, n, m) == Below(links, InterfaceNode(n.tree, n.path, ""), m)
      + if m.iface.Some? then Below(links, InterfaceNode(n.tree, n.path, m.iface.value), m) else {}
  {
    forall r | r in links && Matches(r.keys, m)
      ensures Under(Place(links, r), n) <==>
        || Under(Place(links, r), InterfaceNode(n.tree, n.path, ""))
        || (m.iface.Some? && Under(Place(links, r), InterfaceNode(n.tree, n.path, m.iface.value)))
    {
      UnderPrefix(links[r].tree, r.keys, n.tree, n.path, "", "");
      UnderPrefix(links[r].tree, r.keys, n.tree, n.path, Key(m.iface), "");
    }
  }

  lemma PathLookups(links: Links, t: Tree, m: MessageMetadata)
    ensures Subscribers(links, t, m) == Below(links, PathNode(t, ""), m)
      + if m.path.Some? then Below(links, PathNode(t, m.path.value), m) else {}
  {
    forall r | r in links && Matches(r.keys, m)
      ensures links[r].tree == t <==>
        || Under(Place(links, r), PathNode(t, ""))
        || (m.path.Some? && Under(Place(links, r), PathNode(t, m.path.value)))
    {
      UnderPrefix(links[r].tree, r.keys, t, "", "", "");
      UnderPrefix(links[r].tree, r.keys, t, Key(m.path), "", "");
    }
  }
}
