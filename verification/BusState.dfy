/**
 What holds between the parts of the bus in every reachable state: peers, name queues,
 reply slots and match rules refer only to each other's live entries.
 */
module BusState {
  import opened Base
  import opened MatchKeys
  import opened MatchForest
  import opened Routing
  import Address
  import Names
  import Replies

  predicate IsMonitor(peers: Peers, id: nat) {
    id in peers && peers[id].monitor
  }

  predicate Active(peers: Peers, id: nat) {
    Registered(peers, id) || IsMonitor(peers, id)
  }

  ghost function RegisteredPeers(peers: Peers): set<nat> {
    set p | p in peers && peers[p].registered
  }

  ghost function Monitors(peers: Peers): set<nat> {
    set p | p in peers && peers[p].monitor
  }

  // peers->n_peers, n_registered and bus->n_monitors
  ghost predicate PeersCounted(peers: Peers, ids: nat, nPeers: nat, nRegistered: nat, nMonitors: nat) {
    && nPeers == |peers|
    && nRegistered == |RegisteredPeers(peers)|
    && nMonitors == |Monitors(peers)|
    && (forall p :: p in peers ==> p < ids && !(peers[p].registered && peers[p].monitor))
  }

  // only registered peers stand in name queues
  ghost predicate OwnersRegistered(queues: Names.Queues, peers: Peers) {
    forall n, o :: Names.Queued(Names.QueueOf(queues, n), o) ==> Registered(peers, o)
  }

  // only registered peers call and are called
  ghost predicate SlotsRegistered(slots: set<Replies.Slot>, peers: Peers) {
    forall s :: s in slots ==> Registered(peers, s.callee) && Registered(peers, s.owner) && s.id == s.owner
  }

  // only subscribers and monitors have rules, and only registered peers have registries in use
  ghost predicate RulesSound(rules: Rules, links: Links, peers: Peers) {
    && (forall r :: r in rules ==> rules[r] > 0 && Active(peers, r.owner))
    && (forall r :: r in links ==> r in rules && LinkSound(r, links[r], peers))
  }

  predicate LinkSound(r: Rule, link: Link, peers: Peers) {
    && link.tree.monitor == IsMonitor(peers, r.owner)
    && link.counted == !link.tree.monitor
    && RegistryLive(link.tree.registry, peers)
  }

  predicate RegistryLive(reg: RegistryId, peers: Peers) {
    && (reg.PeerSender? ==> Registered(peers, reg.id))
    && (reg.PeerOwnerChanged? ==> Registered(peers, reg.id))
  }

  // Nothing on the bus refers to peer p.
  ghost predicate Unreferenced(p: nat, queues: Names.Queues, slots: set<Replies.Slot>, rules: Rules, links: Links) {
    && (forall n :: !Names.Queued(Names.QueueOf(queues, n), p))
    && (forall s :: s in slots ==> s.callee != p && s.owner != p && s.id != p)
    && (forall r :: r in rules ==> r.owner != p)
    && (forall r :: r in links ==>
          r.owner != p && links[r].tree.registry != PeerSender(p) && links[r].tree.registry != PeerOwnerChanged(p))
  }

  lemma InactiveIsUnreferenced(p: nat, peers: Peers, queues: Names.Queues, slots: set<Replies.Slot>, rules: Rules,
    links: Links)
    requires OwnersRegistered(queues, peers) && SlotsRegistered(slots, peers) && RulesSound(rules, links, peers)
    requires !Active(peers, p)
    ensures Unreferenced(p, queues, slots, rules, links)
  {
  }

  // ---------------------------------------------------------------- the whole

  // The values that tie the parts of a bus together
  datatype View = View(
    peers: Peers,
    ids: nat,
    nPeers: nat,
    nRegistered: nat,
    nMonitors: nat,
    queues: Names.Queues,
    slots: set<Replies.Slot>,
    rules: Rules,
    links: Links,
    missed: set<Rule>)       // rules added in the gap before their peer's Hello()

  ghost predicate ReferencesLive(v: View) {
    && OwnersRegistered(v.queues, v.peers)
    && SlotsRegistered(v.slots, v.peers)
    && RulesSound(v.rules, v.links, v.peers)
  }

  // The invariant between calls
  ghost predicate Sound(v: View) {
    && PeersCounted(v.peers, v.ids, v.nPeers, v.nRegistered, v.nMonitors)
    && ReferencesLive(v)
    && NamesOwnable(v.queues)
    && Placed(v.rules, v.links, v.peers, v.ids, v.missed)
  }

  const EMPTY_BUS := View(map[], 0, 0, 0, 0, map[], {}, map[], map[], {})

  lemma EmptyBusSound()
    ensures Sound(EMPTY_BUS)
  {
    assert RegisteredPeers(map[]) == {} && Monitors(map[]) == {};
  }

  // The counters of peers, registered peers and monitors are exact, and no id is given out twice.
  lemma SoundCounts(v: View)
    requires Sound(v)
    ensures v.nPeers == |v.peers|
    ensures v.nRegistered == |set p | p in v.peers && v.peers[p].registered|
    ensures v.nMonitors == |set p | p in v.peers && v.peers[p].monitor|
    ensures forall p :: p in v.peers ==> p < v.ids && !(v.peers[p].registered && v.peers[p].monitor)
  {
    assert RegisteredPeers(v.peers) == set p | p in v.peers && v.peers[p].registered;
    assert Monitors(v.peers) == set p | p in v.peers && v.peers[p].monitor;
  }

  // A linked rule stands in the tree of its owner's role, and counts exactly if that is no monitor.
  lemma SoundLinks(v: View, r: Rule)
    requires Sound(v) && r in v.links
    ensures r in v.rules && v.rules[r] > 0 && r.owner in v.peers
    ensures v.links[r].tree.monitor <==> v.peers[r.owner].monitor
    ensures v.links[r].counted <==> v.peers[r.owner].registered
  {
    assert LinkSound(r, v.links[r], v.peers);
  }

  // No name queue, reply slot or match registry refers to a peer that has left.
  lemma SoundUnreferenced(v: View, p: nat)
    requires Sound(v) && !Active(v.peers, p)
    ensures Unreferenced(p, v.queues, v.slots, v.rules, v.links)
  {
    InactiveIsUnreferenced(p, v.peers, v.queues, v.slots, v.rules, v.links);
  }

  // ---------------------------------------------------------------- steps of the parts

  lemma PeersJoin(peers: Peers, ids: nat, nPeers: nat, nRegistered: nat, nMonitors: nat)
    requires PeersCounted(peers, ids, nPeers, nRegistered, nMonitors)
    ensures ids !in peers
    ensures PeersCounted(peers[ids := Peer(false, false, true)], ids + 1, nPeers + 1, nRegistered, nMonitors)
  {
    var peers' := peers[ids := Peer(false, false, true)];
    assert RegisteredPeers(peers') == RegisteredPeers(peers);
    assert Monitors(peers') == Monitors(peers);
  }

  // a counter of peers in a role, after one peer has taken it up or laid it down
  function Recounted(n: nat, before: bool, after: bool): nat {
    if before == after then n else if after then n + 1 else if n > 0 then n - 1 else 0
  }

  lemma PeersSwitch(peers: Peers, ids: nat, nPeers: nat, nRegistered: nat, nMonitors: nat, p: nat, to: Peer)
    requires PeersCounted(peers, ids, nPeers, nRegistered, nMonitors)
    requires p in peers && !(to.registered && to.monitor)
    ensures PeersCounted(peers[p := to], ids, nPeers,
              Recounted(nRegistered, peers[p].registered, to.registered),
              Recounted(nMonitors, peers[p].monitor, to.monitor))
  {
    var peers' := peers[p := to];
    assert RegisteredPeers(peers') ==
      if to.registered then RegisteredPeers(peers) + {p} else RegisteredPeers(peers) - {p};
    assert Monitors(peers') == if to.monitor then Monitors(peers) + {p} else Monitors(peers) - {p};
    assert p in RegisteredPeers(peers) <==> peers[p].registered;
    assert p in Monitors(peers) <==> peers[p].monitor;
    hide RegisteredPeers;
    hide Monitors;
    SwitchCounts(RegisteredPeers(peers), p, to.registered);
    SwitchCounts(Monitors(peers), p, to.monitor);
  }

  lemma SwitchCounts(s: set<nat>, p: nat, into: bool)
    ensures |if into then s + {p} else s - {p}| == Recounted(|s|, p in s, into)
  {
    assert p in s ==> s + {p} == s;
    assert p !in s ==> s - {p} == s;
  }

  lemma PeersLeave(peers: Peers, ids: nat, nPeers: nat, nRegistered: nat, nMonitors: nat, p: nat)
    requires PeersCounted(peers, ids, nPeers, nRegistered, nMonitors)
    requires p in peers && !Active(peers, p)
    ensures nPeers > 0 && PeersCounted(peers - {p}, ids, nPeers - 1, nRegistered, nMonitors)
  {
    assert RegisteredPeers(peers - {p}) == RegisteredPeers(peers);
    assert Monitors(peers - {p}) == Monitors(peers);
  }

  // Peers that nothing refers to may change or leave.
  lemma OthersUnaffected(peers: Peers, peers': Peers, p: nat, queues: Names.Queues, slots: set<Replies.Slot>,
    rules: Rules, links: Links)
    requires OwnersRegistered(queues, peers) && SlotsRegistered(slots, peers) && RulesSound(rules, links, peers)
    requires Unreferenced(p, queues, slots, rules, links)
    requires forall q :: q != p ==> (q in peers <==> q in peers') && (q in peers ==> peers[q] == peers'[q])
    ensures OwnersRegistered(queues, peers') && SlotsRegistered(slots, peers') && RulesSound(rules, links, peers')
  {
    forall n, o | Names.Queued(Names.QueueOf(queues, n), o) ensures Registered(peers', o) {
      assert !Names.Queued(Names.QueueOf(queues, n), p);
      assert Registered(peers, o) && o != p;
      assert o in peers' && peers[o] == peers'[o];
    }
  }

  lemma PlacedLater(rules: Rules, links: Links, peers: Peers, peers': Peers, ids: nat, ids': nat, missed: set<Rule>)
    requires Placed(rules, links, peers, ids, missed) && ids <= ids'
    requires forall id: nat :: id < ids && MayRegister(peers', id) ==> MayRegister(peers, id)
    ensures Placed(rules, links, peers', ids', missed)
  {
    forall r | r in rules && r !in links
      ensures UnlinkedForAReason(r, peers', ids', missed)
    {
      assert UnlinkedForAReason(r, peers, ids, missed);
    }
  }

  // ---------------------------------------------------------------- steps of the whole

  // a peer connects
  function Joined(v: View): View {
    v.(peers := v.peers[v.ids := Peer(false, false, true)], ids := v.ids + 1, nPeers := v.nPeers + 1)
  }

  // A new peer has an id of its own, and everybody else stays.
  lemma JoinedIs(v: View)
    ensures var w := Joined(v);
      && v.ids in w.peers && !w.peers[v.ids].registered && !w.peers[v.ids].monitor && w.peers[v.ids].open
      && (forall q :: q != v.ids ==> (q in w.peers <==> q in v.peers) && (q in v.peers ==> w.peers[q] == v.peers[q]))
      && w.ids == v.ids + 1 && w.nPeers == v.nPeers + 1 && w.nRegistered == v.nRegistered && w.nMonitors == v.nMonitors
      && w.queues == v.queues && w.slots == v.slots && w.rules == v.rules && w.links == v.links && w.missed == v.missed
  {
  }

  lemma JoinedSound(v: View)
    requires Sound(v)
    ensures v.ids !in v.peers && Sound(Joined(v))
  {
    hide PeersCounted;
    hide OwnersRegistered;
    hide SlotsRegistered;
    hide RulesSound;
    hide NamesOwnable;
    hide Placed;
    hide Unreferenced;
    PeersJoin(v.peers, v.ids, v.nPeers, v.nRegistered, v.nMonitors);
    var peers' := Joined(v).peers;
    SoundUnreferenced(v, v.ids);
    OthersUnaffected(v.peers, peers', v.ids, v.queues, v.slots, v.rules, v.links);
    PlacedLater(v.rules, v.links, v.peers, peers', v.ids, v.ids + 1, v.missed);
  }

  // an unreferenced peer changes its role
  function Switched(v: View, p: nat, to: Peer): View
    requires p in v.peers
  {
    v.(peers := v.peers[p := to],
       nRegistered := Recounted(v.nRegistered, v.peers[p].registered, to.registered),
       nMonitors := Recounted(v.nMonitors, v.peers[p].monitor, to.monitor))
  }

  // Hello() registers the peer and nobody else.
  lemma HelloIs(v: View, p: nat)
    requires Sound(v) && p in v.peers && v.peers[p] == Peer(false, false, true)
    ensures var w := Switched(v, p, SUBSCRIBER);
      && w.peers[p].registered && !w.peers[p].monitor
      && (forall q :: q != p ==> (q in w.peers <==> q in v.peers) && (q in v.peers ==> w.peers[q] == v.peers[q]))
      && w.ids == v.ids && w.nPeers == v.nPeers && w.nRegistered == v.nRegistered + 1 && w.nMonitors == v.nMonitors
      && w.queues == v.queues && w.slots == v.slots && w.rules == v.rules && w.links == v.links && w.missed == v.missed
  {
  }

  lemma SwitchedSound(v: View, p: nat, to: Peer)
    requires Sound(v) && p in v.peers && !(to.registered && to.monitor)
    requires Unreferenced(p, v.queues, v.slots, v.rules, v.links)
    requires to.registered || (to.open && !to.monitor) ==> MayRegister(v.peers, p)
    ensures Sound(Switched(v, p, to))
  {
    PeersSwitch(v.peers, v.ids, v.nPeers, v.nRegistered, v.nMonitors, p, to);
    var peers' := v.peers[p := to];
    OthersUnaffected(v.peers, peers', p, v.queues, v.slots, v.rules, v.links);
    PlacedLater(v.rules, v.links, v.peers, peers', v.ids, v.ids, v.missed);
  }

  // a peer that is not active any more is freed
  function Freed(v: View, p: nat): View
    requires v.nPeers > 0
  {
    v.(peers := v.peers - {p}, nPeers := v.nPeers - 1)
  }

  lemma FreedSound(v: View, p: nat)
    requires Sound(v) && p in v.peers && !Active(v.peers, p)
    ensures v.nPeers > 0 && Sound(Freed(v, p))
  {
    PeersLeave(v.peers, v.ids, v.nPeers, v.nRegistered, v.nMonitors, p);
    SoundUnreferenced(v, p);
    OthersUnaffected(v.peers, v.peers - {p}, p, v.queues, v.slots, v.rules, v.links);
    PlacedLater(v.rules, v.links, v.peers, v.peers - {p}, v.ids, v.ids, v.missed);
  }

  // one name queue changes, by which no unregistered peer enters it
  function Requeued(v: View, n: string, q: Names.Queue): View {
    v.(queues := v.queues[n := q])
  }

  lemma OwnableWith(queues: Names.Queues, n: string, q: Names.Queue)
    requires NamesOwnable(queues) && (q != [] ==> n != "" && n[0] != ':' && n != DRIVER_NAME)
    ensures NamesOwnable(queues[n := q])
  {
    forall m | Names.QueueOf(queues[n := q], m) != [] ensures m != "" && m[0] != ':' && m != DRIVER_NAME {
      if m != n {
        assert Names.QueueOf(queues[n := q], m) == Names.QueueOf(queues, m);
      }
    }
  }

  lemma QueuedOwnable(queues: Names.Queues, n: string, p: nat)
    requires NamesOwnable(queues) && Names.Queued(Names.QueueOf(queues, n), p)
    ensures n != "" && n[0] != ':' && n != DRIVER_NAME
  {
    assert Names.QueueOf(queues, n) != [];
  }

  lemma RequeuedSound(v: View, n: string, q: Names.Queue)
    requires Sound(v)
    requires forall o :: Names.Queued(q, o) ==> Registered(v.peers, o)
    requires q != [] ==> n != "" && n[0] != ':' && n != DRIVER_NAME
    ensures Sound(Requeued(v, n, q))
  {
    var queues' := v.queues[n := q];
    forall m, o | Names.Queued(Names.QueueOf(queues', m), o) ensures Registered(v.peers, o) {
      assert m != n ==> Names.Queued(Names.QueueOf(v.queues, m), o);
    }
    OwnableWith(v.queues, n, q);
  }

  // a reply slot opens between two registered peers
  lemma OpenedSound(v: View, s: Replies.Slot)
    requires Sound(v) && Registered(v.peers, s.callee) && Registered(v.peers, s.owner) && s.id == s.owner
    ensures Sound(v.(slots := v.slots + {s}))
  {
  }

  lemma SettledSound(v: View, slots: set<Replies.Slot>)
    requires Sound(v) && slots <= v.slots
    ensures Sound(v.(slots := slots))
  {
  }

  // A peer adds a rule, once more or for the first time.
  function Subscribed(v: View, r: Rule): View {
    var home := Home(r.keys, v.peers, v.ids);
    var monitor := IsMonitor(v.peers, r.owner);
    v.(rules := v.rules[r := (if r in v.rules then v.rules[r] else 0) + 1],
       links := if home.Some? then v.links[r := Link(Tree(home.value, monitor), !monitor)] else v.links,
       missed := if home.None? && r !in v.links then v.missed + {r} else v.missed)
  }

  // Adding the rule again would not move it (see RelinkMovesIff).
  predicate Relinkable(v: View, r: Rule) {
    r in v.links && Home(r.keys, v.peers, v.ids).Some? ==>
      v.links[r].tree.registry == Home(r.keys, v.peers, v.ids).value
  }

  // The rule has one more reference. It stands where Home says, in the tree of the peer's role, if
  // anywhere. Other rules stay.
  lemma SubscribedIs(v: View, r: Rule)
    ensures var w, home := Subscribed(v, r), Home(r.keys, v.peers, v.ids);
      var monitor := r.owner in v.peers && v.peers[r.owner].monitor;
      && r in w.rules && w.rules[r] == (if r in v.rules then v.rules[r] + 1 else 1)
      && (forall x :: x != r ==> (x in w.rules <==> x in v.rules) && (x in v.rules ==> w.rules[x] == v.rules[x]))
      && (home.Some? ==> r in w.links && w.links[r].tree == Tree(home.value, monitor) && w.links[r].counted == !monitor)
      && (home.None? ==> w.links == v.links)
      && w.missed == (if home.None? && r !in v.links then v.missed + {r} else v.missed)
      && (forall x :: x != r ==> (x in w.links <==> x in v.links) && (x in v.links ==> w.links[x] == v.links[x]))
      && w.peers == v.peers && w.queues == v.queues && w.slots == v.slots
  {
  }

  lemma SubscribedRules(v: View, r: Rule)
    requires RulesSound(v.rules, v.links, v.peers) && Active(v.peers, r.owner)
    ensures RulesSound(Subscribed(v, r).rules, Subscribed(v, r).links, v.peers)
  {
    var home, v' := Home(r.keys, v.peers, v.ids), Subscribed(v, r);
    hide Home;
    if home.Some? {
      HomeIsLive(r.keys, v.peers, v.ids);
    }
    forall x | x in v'.links ensures x in v'.rules && LinkSound(x, v'.links[x], v.peers) {
      assert x != r ==> x in v.links && LinkSound(x, v.links[x], v.peers);
      assert home.None? ==> x in v.links && LinkSound(x, v.links[x], v.peers);
    }
  }

  lemma HomeIsLive(k: RuleKeys, peers: Peers, ids: nat)
    requires Home(k, peers, ids).Some?
    ensures RegistryLive(Home(k, peers, ids).value, peers)
  {
  }

  lemma SubscribedPlaced(v: View, r: Rule)
    requires Placed(v.rules, v.links, v.peers, v.ids, v.missed)
    ensures var v' := Subscribed(v, r); Placed(v'.rules, v'.links, v.peers, v.ids, v'.missed)
  {
    HomeStandsRight(r.keys, v.peers, v.ids);
    var home, v' := Home(r.keys, v.peers, v.ids), Subscribed(v, r);
    hide Home;
    hide StandsRight;
    forall x | x in v'.rules && x !in v'.links
      ensures UnlinkedForAReason(x, v'.peers, v'.ids, v'.missed)
    {
      if x != r {
        assert UnlinkedForAReason(x, v.peers, v.ids, v.missed);
      }
    }
    forall x | x in v'.links ensures x in v'.rules && StandsRight(x.keys, v'.links[x].tree.registry) {
      assert x != r ==> x in v.links && StandsRight(x.keys, v.links[x].tree.registry);
      assert home.None? ==> x in v.links && StandsRight(x.keys, v.links[x].tree.registry);
    }
  }

  lemma SubscribedSound(v: View, r: Rule)
    requires Sound(v) && Active(v.peers, r.owner)
    ensures Sound(Subscribed(v, r))
  {
    SubscribedRules(v, r);
    SubscribedPlaced(v, r);
    hide Home;
    hide RulesSound;
    hide Placed;
    hide OwnersRegistered;
    hide SlotsRegistered;
    hide NamesOwnable;
    hide PeersCounted;
  }

  // a peer connects and says Hello()
  function Welcomed(v: View): View {
    Switched(Joined(v), v.ids, SUBSCRIBER)
  }

  const SUBSCRIBER := Peer(true, false, true)

  lemma WelcomedSound(v: View)
    requires Sound(v)
    ensures Sound(Welcomed(v))
  {
    JoinedSound(v);
    var w := Joined(v);
    SoundUnreferenced(w, v.ids);
    hide Sound;
    SwitchedSound(w, v.ids, SUBSCRIBER);
  }

  // a rule loses one of its references, or the last one
  function Unsubscribed(v: View, r: Rule): View
    requires r in v.rules && v.rules[r] > 0
  {
    if v.rules[r] > 1 then v.(rules := v.rules[r := v.rules[r] - 1])
    else v.(rules := v.rules - {r}, links := v.links - {r})
  }

  // Only the last reference takes the rule out of its registry.
  lemma UnsubscribedIs(v: View, r: Rule)
    requires r in v.rules && v.rules[r] > 0
    ensures var w := Unsubscribed(v, r);
      && (v.rules[r] > 1 ==> r in w.rules && w.rules[r] == v.rules[r] - 1 && w.links == v.links)
      && (v.rules[r] == 1 ==> r !in w.rules && r !in w.links)
      && (forall x :: x != r ==> (x in w.rules <==> x in v.rules) && (x in v.rules ==> w.rules[x] == v.rules[x]))
      && (forall x :: x != r ==> (x in w.links <==> x in v.links) && (x in v.links ==> w.links[x] == v.links[x]))
      && w.peers == v.peers && w.queues == v.queues && w.slots == v.slots
  {
  }

  // A client can get there: peer 0 adds a rule for messages of ":1.1" while peer 1 is still to come,
  // and once more after peer 1 has connected and said Hello().
  lemma RelinkExample(k: RuleKeys)
    requires k == EMPTY.(sender := Some(Address.IdToString(1)), senderId := Some(1))
    ensures var v0 := Welcomed(EMPTY_BUS); var v1 := Subscribed(v0, Rule(0, k)); var v2 := Welcomed(v1);
      && WellFormed(k) && Sound(v0) && Sound(v1) && Sound(v2)
      && Relinkable(v0, Rule(0, k)) && Relinkable(v1, Rule(0, k)) && Registered(v2.peers, 0)
      && !Relinkable(v2, Rule(0, k))
  {
    Address.IdRoundTrip(1);
    DriverHasNoId(1);
    RelinkHomes(k);
    EmptyBusSound();
    WelcomedSound(EMPTY_BUS);
    var v0 := Welcomed(EMPTY_BUS);
    assert Active(v0.peers, 0);
    hide Sound;
    hide Home;
    SubscribedSound(v0, Rule(0, k));
    WelcomedSound(Subscribed(v0, Rule(0, k)));
  }

  lemma RelinkHomes(k: RuleKeys)
    requires k.sender == Some(Address.IdToString(1))
    ensures var one := map[0 := SUBSCRIBER];
      && Home(k, one, 1) == Some(Wildcard)
      && Home(k, one[1 := SUBSCRIBER], 2) == Some(PeerSender(1))
  {
    Address.IdRoundTrip(1);
    DriverHasNoId(1);
  }

  // some rules are unlinked and freed
  ghost predicate FewerRules(v: View, rules: Rules, links: Links) {
    && (forall r :: r in rules ==> r in v.rules && rules[r] > 0)
    && (forall r :: r in links <==> r in v.links && r in rules)
    && (forall r :: r in links ==> links[r] == v.links[r])
  }

  lemma FewerRulesSound(v: View, rules: Rules, links: Links)
    requires RulesSound(v.rules, v.links, v.peers) && FewerRules(v, rules, links)
    ensures RulesSound(rules, links, v.peers)
  {
    hide LinkSound;
    forall r | r in links ensures r in rules && LinkSound(r, links[r], v.peers) {
      assert r in v.links && LinkSound(r, v.links[r], v.peers);
    }
  }

  lemma FewerRulesPlaced(v: View, rules: Rules, links: Links)
    requires Placed(v.rules, v.links, v.peers, v.ids, v.missed) && FewerRules(v, rules, links)
    ensures Placed(rules, links, v.peers, v.ids, v.missed)
  {
    hide StandsRight;
    hide UnlinkedForAReason;
    forall r | r in rules && r !in links
      ensures UnlinkedForAReason(r, v.peers, v.ids, v.missed)
    {
      assert r in v.rules && r !in v.links;
    }
    forall r | r in links ensures r in rules && StandsRight(r.keys, links[r].tree.registry) {
      assert r in v.links && StandsRight(r.keys, v.links[r].tree.registry);
    }
  }

  lemma UnsubscribedSound(v: View, rules: Rules, links: Links)
    requires Sound(v) && FewerRules(v, rules, links)
    ensures Sound(v.(rules := rules, links := links))
  {
    FewerRulesSound(v, rules, links);
    FewerRulesPlaced(v, rules, links);
    hide FewerRules;
    hide RulesSound;
    hide Placed;
    hide OwnersRegistered;
    hide SlotsRegistered;
    hide NamesOwnable;
    hide PeersCounted;
  }

  // ---------------------------------------------------------------- disconnecting

  function RulesOfOthers(rules: Rules, p: nat): Rules {
    map r | r in rules && r.owner != p :: rules[r]
  }

  function LinksOfOthers(links: Links, p: nat): Links {
    map r | r in links && r.owner != p :: links[r]
  }

  function QueuesWithout(queues: Names.Queues, p: nat): Names.Queues {
    map n | n in queues :: Names.Others(queues[n], p)
  }

  function SlotsNotFrom(slots: set<Replies.Slot>, p: nat): set<Replies.Slot> {
    set s | s in slots && s.owner != p
  }

  function SlotsNotTo(slots: set<Replies.Slot>, p: nat): set<Replies.Slot> {
    set s | s in slots && s.callee != p
  }

  function SlotsWithout(slots: set<Replies.Slot>, p: nat): set<Replies.Slot> {
    SlotsNotTo(SlotsNotFrom(slots, p), p)
  }

  const GONE := Peer(false, false, false)

  // What driver_goodbye() makes of the bus.
  function Departed(v: View, p: nat): View
    requires p in v.peers
  {
    Switched(v, p, GONE).(
      rules := RulesOfOthers(v.rules, p),
      links := Outside(Outside(LinksOfOthers(v.links, p), PeerSender(p)), PeerOwnerChanged(p)),
      queues := QueuesWithout(v.queues, p),
      slots := SlotsWithout(v.slots, p))
  }

  // Nobody but the peer loses anything, apart from rules that stood in its registries: those stay with
  // their owners, unlinked.
  lemma DepartedKeepsOthers(v: View, p: nat)
    requires p in v.peers
    ensures var w := Departed(v, p);
      && (forall q :: q != p ==> (q in w.peers <==> q in v.peers) && (q in v.peers ==> w.peers[q] == v.peers[q]))
      && !w.peers[p].registered && !w.peers[p].monitor && !w.peers[p].open
      && (forall r: Rule :: r.owner != p ==>
            (r in w.rules <==> r in v.rules) && (r in v.rules ==> w.rules[r] == v.rules[r]))
      && (forall r :: r in w.links <==>
            && r in v.links && r.owner != p
            && v.links[r].tree.registry != PeerSender(p) && v.links[r].tree.registry != PeerOwnerChanged(p))
      && (forall r :: r in w.links ==> w.links[r] == v.links[r])
      && (forall s: Replies.Slot :: s.owner != p && s.callee != p ==> (s in w.slots <==> s in v.slots))
      && w.ids == v.ids && w.nPeers == v.nPeers && w.missed == v.missed
  {
  }

  // ... nor does anybody else lose a place in a queue
  lemma DepartedQueues(v: View, p: nat, n: string, o: nat)
    requires p in v.peers
    ensures Names.Queued(Names.QueueOf(Departed(v, p).queues, n), o) <==>
      Names.Queued(Names.QueueOf(v.queues, n), o) && o != p
    ensures !Names.Queued(Names.QueueOf(v.queues, n), p) ==>
      Names.QueueOf(Departed(v, p).queues, n) == Names.QueueOf(v.queues, n)
  {
    var q := Names.QueueOf(v.queues, n);
    Names.OthersQueued(q, p, o);
    if !Names.Queued(q, p) {
      Names.OthersOfOther(q, p);
    }
  }

  lemma QueuesWithoutSound(v: View, p: nat)
    requires OwnersRegistered(v.queues, v.peers) && NamesOwnable(v.queues)
    ensures OwnersRegistered(QueuesWithout(v.queues, p), v.peers) && NamesOwnable(QueuesWithout(v.queues, p))
    ensures forall n :: !Names.Queued(Names.QueueOf(QueuesWithout(v.queues, p), n), p)
  {
    var queues' := QueuesWithout(v.queues, p);
    forall n ensures Names.QueueOf(queues', n) == Names.Others(Names.QueueOf(v.queues, n), p)
      && !Names.Queued(Names.QueueOf(queues', n), p) {
      Names.OthersQueued(Names.QueueOf(v.queues, n), p, p);
    }
    forall n, o | Names.Queued(Names.QueueOf(queues', n), o) ensures Registered(v.peers, o) {
      Names.OthersQueued(Names.QueueOf(v.queues, n), p, o);
    }
    forall n | Names.QueueOf(queues', n) != [] ensures n != "" && n[0] != ':' && n != DRIVER_NAME {
      assert Names.QueueOf(v.queues, n) != [];
    }
  }

  lemma FlushedRules(v: View, p: nat)
    requires RulesSound(v.rules, v.links, v.peers)
    ensures var links := Outside(Outside(LinksOfOthers(v.links, p), PeerSender(p)), PeerOwnerChanged(p));
      RulesSound(RulesOfOthers(v.rules, p), links, v.peers[p := GONE])
  {
    var rules := RulesOfOthers(v.rules, p);
    var links := Outside(Outside(LinksOfOthers(v.links, p), PeerSender(p)), PeerOwnerChanged(p));
    forall r | r in links ensures r in rules && LinkSound(r, links[r], v.peers[p := GONE]) {
      assert r in v.links && LinkSound(r, v.links[r], v.peers);
    }
  }

  lemma PeerRegistrySubject(k: RuleKeys, reg: RegistryId, p: nat)
    requires StandsRight(k, reg) && (reg == PeerSender(p) || reg == PeerOwnerChanged(p))
    ensures Subject(k) == Some(p)
  {
  }

  lemma FlushedPlaced(v: View, p: nat)
    requires Placed(v.rules, v.links, v.peers, v.ids, v.missed) && p < v.ids
    ensures var links := Outside(Outside(LinksOfOthers(v.links, p), PeerSender(p)), PeerOwnerChanged(p));
      Placed(RulesOfOthers(v.rules, p), links, v.peers[p := GONE], v.ids, v.missed)
  {
    hide Placed;
    var links := LinksOfOthers(v.links, p);
    OthersPlaced(v.rules, v.links, v.peers, v.ids, v.missed, p);
    RegistryFlushed(RulesOfOthers(v.rules, p), links, v.peers[p := GONE], v.ids, v.missed, p, PeerSender(p));
    RegistryFlushed(RulesOfOthers(v.rules, p), Outside(links, PeerSender(p)), v.peers[p := GONE], v.ids, v.missed, p,
      PeerOwnerChanged(p));
  }

  lemma OthersPlaced(rules: Rules, links: Links, peers: Peers, ids: nat, missed: set<Rule>, p: nat)
    requires Placed(rules, links, peers, ids, missed)
    ensures Placed(RulesOfOthers(rules, p), LinksOfOthers(links, p), peers[p := GONE], ids, missed)
  {
    hide StandsRight;
    hide Subject;
    var rules', links', peers' := RulesOfOthers(rules, p), LinksOfOthers(links, p), peers[p := GONE];
    forall r | r in links' ensures r in rules' && StandsRight(r.keys, links'[r].tree.registry) {
      assert r in links;
    }
    forall r | r in rules' && r !in links' ensures UnlinkedForAReason(r, peers', ids, missed) {
      assert UnlinkedForAReason(r, peers, ids, missed);
    }
  }

  // The rules that a registry of the departed peer lets go hang on it.
  lemma RegistryFlushed(rules: Rules, links: Links, peers: Peers, ids: nat, missed: set<Rule>, p: nat, reg: RegistryId)
    requires Placed(rules, links, peers, ids, missed) && p < ids && !MayRegister(peers, p)
    requires reg == PeerSender(p) || reg == PeerOwnerChanged(p)
    ensures Placed(rules, Outside(links, reg), peers, ids, missed)
  {
    hide StandsRight;
    hide Subject;
    var links' := Outside(links, reg);
    forall r | r in links' ensures r in rules && StandsRight(r.keys, links'[r].tree.registry) {
      assert r in links;
    }
    forall r | r in rules && r !in links' ensures UnlinkedForAReason(r, peers, ids, missed) {
      if r in links {
        PeerRegistrySubject(r.keys, links[r].tree.registry, p);
      } else {
        assert UnlinkedForAReason(r, peers, ids, missed);
      }
    }
  }

  // In the middle of a disconnect the rules for messages of the peer hang in the air. Rules that watch
  // the owner of a name do not.
  lemma WatchersFlushed(rules: Rules, links: Links, peers: Peers, ids: nat, missed: set<Rule>, p: nat)
    requires WatchersPlaced(rules, links, peers, ids, missed)
    ensures WatchersPlaced(RulesOfOthers(rules, p), Outside(LinksOfOthers(links, p), PeerSender(p)), peers, ids, missed)
  {
    hide StandsRight;
    hide Subject;
    hide WatchesOwner;
    hide UnlinkedForAReason;
    var rules', links' := RulesOfOthers(rules, p), Outside(LinksOfOthers(links, p), PeerSender(p));
    forall r | r in links' ensures r in rules' && StandsRight(r.keys, links'[r].tree.registry) {
      assert r in links;
    }
    forall r | r in rules' && r !in links'
      ensures Subject(r.keys).Some? && (WatchesOwner(r.keys) ==> UnlinkedForAReason(r, peers, ids, missed)) {
      if r in links {
        PeerSenderHasNoWatchers(r.keys, p);
      }
    }
  }

  lemma PeerSenderHasNoWatchers(k: RuleKeys, p: nat)
    ensures StandsRight(k, PeerSender(p)) ==> Subject(k).Some? && !WatchesOwner(k)
  {
  }

  // Disconnecting leaves a sound bus that does not refer to the peer any more.
  lemma DepartedSound(v: View, p: nat)
    requires Sound(v) && p in v.peers
    ensures Sound(Departed(v, p))
    ensures var d := Departed(v, p); Unreferenced(p, d.queues, d.slots, d.rules, d.links)
  {
    PeersSwitch(v.peers, v.ids, v.nPeers, v.nRegistered, v.nMonitors, p, GONE);
    assert p < v.ids;
    FlushedRules(v, p);
    FlushedPlaced(v, p);
    QueuesWithoutSound(v, p);
    DepartedReferences(v, p);
    hide PeersCounted;
    hide OwnersRegistered;
    hide SlotsRegistered;
    hide RulesSound;
    hide NamesOwnable;
    hide Placed;
    SoundUnreferenced(Departed(v, p), p);
  }

  lemma DepartedReferences(v: View, p: nat)
    requires OwnersRegistered(v.queues, v.peers) && SlotsRegistered(v.slots, v.peers) && NamesOwnable(v.queues)
    ensures OwnersRegistered(QueuesWithout(v.queues, p), v.peers[p := GONE])
    ensures SlotsRegistered(SlotsWithout(v.slots, p), v.peers[p := GONE])
  {
    QueuesWithoutSound(v, p);
    var queues' := QueuesWithout(v.queues, p);
    forall n, o | Names.Queued(Names.QueueOf(queues', n), o) ensures Registered(v.peers[p := GONE], o) {
      assert Registered(v.peers, o);
      assert !Names.Queued(Names.QueueOf(queues', n), p);
    }
  }

  // A second goodbye finds nothing to do.
  lemma DepartedTwice(v: View, p: nat)
    requires Sound(v) && p in v.peers && v.peers[p] == GONE
    ensures Departed(v, p) == v
  {
    SoundUnreferenced(v, p);
    assert v.peers[p := GONE] == v.peers;
    hide Sound;
    NothingQueued(v.queues, p, v.slots, v.rules, v.links);
    NothingLinked(v.queues, p, v.slots, v.rules, v.links);
    hide RulesOfOthers;
    hide LinksOfOthers;
    hide Outside;
    hide SlotsWithout;
    hide QueuesWithout;
    hide Unreferenced;
  }

  lemma NothingLinked(queues: Names.Queues, p: nat, slots: set<Replies.Slot>, rules: Rules, links: Links)
    requires Unreferenced(p, queues, slots, rules, links)
    ensures RulesOfOthers(rules, p) == rules && SlotsWithout(slots, p) == slots
    ensures Outside(Outside(LinksOfOthers(links, p), PeerSender(p)), PeerOwnerChanged(p)) == links
  {
    assert LinksOfOthers(links, p) == links;
    assert Outside(links, PeerSender(p)) == links && Outside(links, PeerOwnerChanged(p)) == links;
  }

  lemma NothingQueued(queues: Names.Queues, p: nat, slots: set<Replies.Slot>, rules: Rules, links: Links)
    requires Unreferenced(p, queues, slots, rules, links)
    ensures QueuesWithout(queues, p) == queues
  {
    forall n | n in queues ensures Names.Others(queues[n], p) == queues[n] {
      assert !Names.Queued(Names.QueueOf(queues, n), p);
      Names.OthersOfOther(queues[n], p);
    }
  }

  // ---------------------------------------------------------------- monitoring

  const MONITOR := Peer(false, true, false)

  // where the rules of a monitor are linked
  function MonitorLinks(wanted: Rules, peers: Peers, ids: nat): Links {
    map r | r in wanted && Home(r.keys, peers, ids).Some? :: Link(Tree(Home(r.keys, peers, ids).value, true), false)
  }

  lemma MonitorLinksMore(wanted: Rules, r: Rule, n: nat, peers: Peers, ids: nat)
    ensures r !in wanted ==>
      MonitorLinks(wanted[r := n], peers, ids)
      == match Home(r.keys, peers, ids)
         case None => MonitorLinks(wanted, peers, ids)
         case Some(reg) => MonitorLinks(wanted, peers, ids)[r := Link(Tree(reg, true), false)]
    ensures MonitorLinks(map[], peers, ids) == map[]
    ensures forall x :: x in MonitorLinks(wanted, peers, ids) ==> x in wanted
  {
    hide Home;
  }

  function Gapped(wanted: Rules, peers: Peers, ids: nat): set<Rule> {
    set r | r in wanted && Home(r.keys, peers, ids).None?
  }

  // A peer that has left the bus becomes a monitor with the rules it wants.
  function Monitoring(v: View, p: nat, wanted: Rules): View
    requires p in v.peers
  {
    Switched(v, p, MONITOR).(
      rules := v.rules + wanted,
      links := v.links + MonitorLinks(wanted, v.peers, v.ids),
      missed := v.missed + Gapped(wanted, v.peers, v.ids))
  }

  // The peer has the rules it wants and no others, each in the monitor tree of its home.
  lemma MonitoringIs(v: View, p: nat, wanted: Rules)
    requires Sound(v) && p in v.peers && v.peers[p] == GONE
    requires forall r :: r in wanted ==> r.owner == p
    ensures var w := Monitoring(v, p, wanted);
      && w.peers[p].monitor && !w.peers[p].registered && w.nMonitors == v.nMonitors + 1
      && (forall q :: q != p ==> (q in w.peers <==> q in v.peers) && (q in v.peers ==> w.peers[q] == v.peers[q]))
      && (forall r: Rule :: r.owner == p ==>
            (r in w.rules <==> r in wanted) && (r in wanted ==> w.rules[r] == wanted[r]))
      && (forall r: Rule :: r.owner != p ==>
            (r in w.rules <==> r in v.rules) && (r in v.rules ==> w.rules[r] == v.rules[r]))
      && (forall r :: r in wanted ==>
            var home := Home(r.keys, v.peers, v.ids);
            && (home.Some? ==> r in w.links && w.links[r] == Link(Tree(home.value, true), false))
            && (home.None? ==> r !in w.links && r in w.missed) && (home.Some? && r !in v.missed ==> r !in w.missed))
      && (forall r: Rule :: r.owner != p ==>
            (r in w.links <==> r in v.links) && (r in v.links ==> w.links[r] == v.links[r]))
      && w.queues == v.queues && w.slots == v.slots
  {
    SoundUnreferenced(v, p);
    hide Home;
    hide Sound;
  }

  lemma MonitoringSound(v: View, p: nat, wanted: Rules)
    requires Sound(v) && p in v.peers && v.peers[p] == GONE
    requires forall r :: r in wanted ==> r.owner == p && wanted[r] > 0
    ensures Sound(Monitoring(v, p, wanted))
  {
    SoundUnreferenced(v, p);
    SwitchedSound(v, p, MONITOR);
    var v1 := Switched(v, p, MONITOR);
    MonitoringRules(v1, p, wanted, MonitorLinks(wanted, v.peers, v.ids), v.peers, v.ids);
    MonitoringPlaced(v, v1, p, wanted);
    hide PeersCounted;
    hide OwnersRegistered;
    hide SlotsRegistered;
    hide RulesSound;
    hide NamesOwnable;
    hide Placed;
  }

  lemma MonitoringRules(v: View, p: nat, wanted: Rules, links: Links, peers: Peers, ids: nat)
    requires RulesSound(v.rules, v.links, v.peers) && IsMonitor(v.peers, p)
    requires forall r :: r in wanted ==> r.owner == p && wanted[r] > 0
    requires forall q :: Registered(peers, q) ==> Registered(v.peers, q)
    requires links == MonitorLinks(wanted, peers, ids)
    ensures RulesSound(v.rules + wanted, v.links + links, v.peers)
  {
    hide Home;
    hide LinkSound;
    var rules', links' := v.rules + wanted, v.links + links;
    forall r | r in links' ensures r in rules' && LinkSound(r, links'[r], v.peers) {
      if r in links {
        HomeIsLive(r.keys, peers, ids);
        MonitorLinkSound(r, links[r], p, v.peers, peers);
      } else {
        assert r in v.links && LinkSound(r, v.links[r], v.peers);
      }
    }
  }

  lemma MonitorLinkSound(r: Rule, link: Link, p: nat, peers: Peers, before: Peers)
    requires r.owner == p && IsMonitor(peers, p)
    requires link.tree.monitor && !link.counted && RegistryLive(link.tree.registry, before)
    requires forall q :: Registered(before, q) ==> Registered(peers, q)
    ensures LinkSound(r, link, peers)
  {
  }

  lemma MonitoringPlaced(v: View, v1: View, p: nat, wanted: Rules)
    requires Sound(v1) && p in v.peers && v1 == Switched(v, p, MONITOR) && !v.peers[p].registered
    ensures var m := Monitoring(v, p, wanted); Placed(m.rules, m.links, m.peers, m.ids, m.missed)
  {
    assert Placed(v1.rules, v1.links, v1.peers, v1.ids, v1.missed);
    hide Sound;
    hide Placed;
    MorePlaced(v.rules, v.links, v1.peers, v.ids, v.missed, wanted, v.peers);
  }

  // Rules that are linked by the peers before a switch are placed by those after it.
  lemma MorePlaced(rules: Rules, links: Links, peers: Peers, ids: nat, missed: set<Rule>, wanted: Rules, before: Peers)
    requires Placed(rules, links, peers, ids, missed)
    ensures Placed(rules + wanted, links + MonitorLinks(wanted, before, ids), peers, ids,
      missed + Gapped(wanted, before, ids))
  {
    var rules', links', missed' :=
      rules + wanted, links + MonitorLinks(wanted, before, ids), missed + Gapped(wanted, before, ids);
    hide StandsRight;
    hide Home;
    hide Subject;
    forall r | r in links' ensures r in rules' && StandsRight(r.keys, links'[r].tree.registry) {
      if r in MonitorLinks(wanted, before, ids) {
        HomeStandsRight(r.keys, before, ids);
      } else {
        assert r in links && StandsRight(r.keys, links[r].tree.registry);
      }
    }
    forall r | r in rules' && r !in links' ensures UnlinkedForAReason(r, peers, ids, missed') {
      if r in wanted {
        HomeStandsRight(r.keys, before, ids);
      } else {
        assert UnlinkedForAReason(r, peers, ids, missed);
      }
    }
  }
}
