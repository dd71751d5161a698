/**
 Where a match rule is linked (peer_link_match() in src/bus/peer.c), and why looking into a
 few registries finds every rule that a signal concerns (src/bus/bus.c).
 */
module Routing {
  import opened Base
  import opened MatchKeys
  import opened MatchForest
  import Address
  import Names

  const DRIVER_NAME := "org.freedesktop.DBus"
  const OWNER_CHANGED := "NameOwnerChanged"

  // `open` says that the peer's input side still delivers messages
  datatype Peer = Peer(registered: bool, monitor: bool, open: bool)

  type Peers = map<nat, Peer>

  // the rules of all owners with their n_user_refs
  type Rules = map<Rule, nat>

  // peer_registry_find_peer() hides peers that are not registered
  predicate Registered(peers: Peers, id: nat) {
    id in peers && peers[id].registered
  }

  // The peer is on the bus, or may still call Hello().
  predicate MayRegister(peers: Peers, id: nat) {
    id in peers && (peers[id].registered || (peers[id].open && !peers[id].monitor))
  }

  // A subscription to NameOwnerChanged of one particular name
  predicate WatchesOwner(k: RuleKeys) {
    && k.sender == Some(DRIVER_NAME)
    && k.member == Some(OWNER_CHANGED)
    && k.args[0].Some?
    && k.args[0].value != DRIVER_NAME
  }

  // The name or peer whose registry a rule belongs to, if any: its sender, or the name whose
  // owner it watches.
  function Target(k: RuleKeys): Option<string> {
    if WatchesOwner(k) then k.args[0]
    else if k.sender == Some(DRIVER_NAME) then None
    else k.sender
  }

  // The peer id that a rule hangs on
  function Subject(k: RuleKeys): Option<nat> {
    if Target(k).None? then None
    else match Address.FromString(Target(k).value)
         case Id(id) => Some(id)
         case _ => None
  }

  // the registry that scans rules without a particular target
  function General(k: RuleKeys): RegistryId {
    if k.sender == Some(DRIVER_NAME) then Driver else Wildcard
  }

  function OfPeer(k: RuleKeys, id: nat): RegistryId {
    if WatchesOwner(k) then PeerOwnerChanged(id) else PeerSender(id)
  }

  function OfName(k: RuleKeys, name: string): RegistryId {
    if WatchesOwner(k) then NameOwnerChanged(name) else NameSender(name)
  }

  // The choice that peer_link_match() makes; None leaves the rule unlinked.
  function Home(k: RuleKeys, peers: Peers, ids: nat): Option<RegistryId> {
    if Target(k).None? then Some(General(k))
    else
      match Subject(k)
      case None => Some(OfName(k, Target(k).value))
      case Some(id) =>
        if Registered(peers, id) then Some(OfPeer(k, id))
        else if id >= ids then Some(General(k))
        else None
  }

  // The cases of peer_link_match(), one by one
  lemma HomeByKeys(k: RuleKeys, peers: Peers, ids: nat)
    ensures var watched := if k.member == Some("NameOwnerChanged") then k.args[0] else None;
      Home(k, peers, ids) ==
      if k.sender.None? then Some(Wildcard)
      else if k.sender.value == "org.freedesktop.DBus" then
        if watched.None? || watched.value == "org.freedesktop.DBus" then Some(Driver)
        else
          match Address.FromString(watched.value)
          case Id(id) =>
            if id in peers && peers[id].registered then Some(PeerOwnerChanged(id))
            else if id >= ids then Some(Driver) else None
          case _ => Some(NameOwnerChanged(watched.value))
      else
        match Address.FromString(k.sender.value)
        case Id(id) =>
          if id in peers && peers[id].registered then Some(PeerSender(id))
          else if id >= ids then Some(Wildcard) else None
        case _ => Some(NameSender(k.sender.value))
  {
  }

  // ---------------------------------------------------------------- where rules may stand

  // A linked rule stands where the lookups for its target will look.
  predicate StandsRight(k: RuleKeys, reg: RegistryId) {
    if Target(k).None? then reg == General(k)
    else
      match Subject(k)
      case None => reg == OfName(k, Target(k).value)
      case Some(id) => reg == OfPeer(k, id) || reg == General(k)
  }

  // An unlinked rule hangs on a peer id that is taken. If that peer can still become visible,
  // the rule was added in the gap between its connecting and its Hello().
  ghost predicate UnlinkedForAReason(r: Rule, peers: Peers, ids: nat, missed: set<Rule>) {
    && Subject(r.keys).Some?
    && Subject(r.keys).value < ids
    && (MayRegister(peers, Subject(r.keys).value) ==> r in missed)
  }

  ghost predicate Placed(rules: Rules, links: Links, peers: Peers, ids: nat, missed: set<Rule>) {
    && (forall r :: r in links ==> r in rules && StandsRight(r.keys, links[r].tree.registry))
    && (forall r :: r in rules && r !in links ==> UnlinkedForAReason(r, peers, ids, missed))
  }

  // What is left of it in the middle of a disconnect, when the rules for messages of the peer are
  // unlinked already: it still holds of the rules that watch the owner of a name.
  ghost predicate WatchersPlaced(rules: Rules, links: Links, peers: Peers, ids: nat, missed: set<Rule>) {
    && (forall r :: r in links ==> r in rules && StandsRight(r.keys, links[r].tree.registry))
    && (forall r :: r in rules && r !in links ==>
          Subject(r.keys).Some? && (WatchesOwner(r.keys) ==> UnlinkedForAReason(r, peers, ids, missed)))
  }

  lemma PlacedWatchers(rules: Rules, links: Links, peers: Peers, ids: nat, missed: set<Rule>)
    requires Placed(rules, links, peers, ids, missed)
    ensures WatchersPlaced(rules, links, peers, ids, missed)
  {
    forall r | r in rules && r !in links ensures UnlinkedForAReason(r, peers, ids, missed) {
    }
  }

  lemma HomeStandsRight(k: RuleKeys, peers: Peers, ids: nat)
    ensures Home(k, peers, ids).Some? ==> StandsRight(k, Home(k, peers, ids).value)
    ensures Home(k, peers, ids).None? ==>
      Subject(k).Some? && Subject(k).value < ids && !Registered(peers, Subject(k).value)
  {
  }

  // ---------------------------------------------------------------- signals of a peer

  // The sender key of a rule admits peer s: it is absent, it is the unique name of s, or it is
  // a name that s is the primary owner of.
  ghost predicate SenderAdmits(k: RuleKeys, s: nat, queues: Names.Queues) {
    || k.sender.None?
    || Address.FromString(k.sender.value) == Address.Id(s)
    || Names.Primary(Names.QueueOf(queues, k.sender.value)) == Some(s)
  }

  // Names that nobody can own: those of peers, and the driver's.
  ghost predicate NamesOwnable(queues: Names.Queues) {
    forall n :: Names.QueueOf(queues, n) != [] ==> n != "" && n[0] != ':' && n != DRIVER_NAME
  }

  // The subscribers (or monitors) that a signal of peer s concerns, over all linked rules.
  ghost function Concerned(links: Links, monitor: bool, s: nat, queues: Names.Queues, m: MessageMetadata): set<nat> {
    set r | r in links && links[r].tree.monitor == monitor && Matches(r.keys, m) && SenderAdmits(r.keys, s, queues)
      :: r.owner
  }

  // what the lookups in the registries of some names find
  ghost function OfNames(links: Links, monitor: bool, names: set<string>, m: MessageMetadata): set<nat> {
    set r | r in links && links[r].tree.registry.NameSender? && links[r].tree.registry.name in names
            && links[r].tree.monitor == monitor && Matches(r.keys, m)
      :: r.owner
  }

  ghost function PrimaryNames(queues: Names.Queues, s: nat): set<string> {
    set n | n in queues && Names.Primary(queues[n]) == Some(s)
  }

  // The registries consulted for a signal of peer s hold exactly the rules it concerns.
  lemma LookupsSuffice(rules: Rules, links: Links, peers: Peers, ids: nat, missed: set<Rule>,
                       queues: Names.Queues, monitor: bool, s: nat, m: MessageMetadata)
    requires Placed(rules, links, peers, ids, missed) && NamesOwnable(queues)
    requires m.senderId == Some(s)
    ensures Concerned(links, monitor, s, queues, m)
         == Subscribers(links, Tree(Wildcard, monitor), m)
          + Subscribers(links, Tree(PeerSender(s), monitor), m)
          + OfNames(links, monitor, PrimaryNames(queues, s), m)
  {
    forall r | r in links && links[r].tree.monitor == monitor && Matches(r.keys, m)
      ensures SenderAdmits(r.keys, s, queues) <==>
        || links[r].tree == Tree(Wildcard, monitor)
        || links[r].tree == Tree(PeerSender(s), monitor)
        || (links[r].tree.registry.NameSender? && links[r].tree.registry.name in PrimaryNames(queues, s))
    {
      SenderOfPlace(r.keys, links[r].tree.registry, s, queues, m);
    }
  }

  lemma OfNamesMore(links: Links, monitor: bool, names: set<string>, n: string, m: MessageMetadata)
    ensures OfNames(links, monitor, names + {n}, m)
         == OfNames(links, monitor, names, m) + Subscribers(links, Tree(NameSender(n), monitor), m)
    ensures OfNames(links, monitor, {}, m) == {}
  {
  }

  lemma SenderOfPlace(k: RuleKeys, reg: RegistryId, s: nat, queues: Names.Queues, m: MessageMetadata)
    requires StandsRight(k, reg) && NamesOwnable(queues)
    requires Matches(k, m) && m.senderId == Some(s)
    ensures SenderAdmits(k, s, queues) <==>
      reg == Wildcard || reg == PeerSender(s) || (reg.NameSender? && reg.name in PrimaryNames(queues, s))
  {
    if k.sender.Some? && k.sender.value != DRIVER_NAME {
      var name := k.sender.value;
      assert Target(k) == k.sender;
      assert name in PrimaryNames(queues, s) <==> Names.Primary(Names.QueueOf(queues, name)) == Some(s);
    }
  }

  // ---------------------------------------------------------------- signals of the driver

  // NameOwnerChanged(name): the registry handed to the lookup
  function OwnerRegistry(name: string): RegistryId {
    match Address.FromString(name)
    case Id(id) => PeerOwnerChanged(id)
    case _ => NameOwnerChanged(name)
  }

  // a NameOwnerChanged signal about `name`
  predicate IsOwnerChanged(m: MessageMetadata, name: string) {
    && m.senderId.None?
    && m.member == Some(OWNER_CHANGED)
    && m.args[0].value == Some(name)
  }

  // the signal as driver_notify_name_owner_changed() composes it, with "" for no owner
  function OwnerChanged(name: string, oldOwner: string, newOwner: string): (m: MessageMetadata)
    ensures IsOwnerChanged(m, name)
  {
    var args := [Arg('s', Some(name)), Arg('s', Some(oldOwner)), Arg('s', Some(newOwner))];
    Metadata(4, None, Some("/org/freedesktop/DBus"), Some(DRIVER_NAME), Some(OWNER_CHANGED),
             args + seq(MAX_ARGS - 3, _ => Arg('\0', None)), 3)
  }

  // The signal says what happened: the name, and its old and its new owner.
  lemma OwnerChangedSays(name: string, oldOwner: string, newOwner: string)
    ensures var m := OwnerChanged(name, oldOwner, newOwner);
      && m.msgType == 4 && m.senderId.None?
      && m.path == Some("/org/freedesktop/DBus") && m.iface == Some("org.freedesktop.DBus")
      && m.member == Some("NameOwnerChanged") && m.nArgs == 3
      && m.args[0] == Arg('s', Some(name)) && m.args[1] == Arg('s', Some(oldOwner))
      && m.args[2] == Arg('s', Some(newOwner))
  {
  }

  // The sender key of a rule admits the driver.
  predicate AdmitsDriver(k: RuleKeys) {
    k.sender.None? || k.sender == Some(DRIVER_NAME)
  }

  ghost function ConcernedByDriver(links: Links, monitor: bool, m: MessageMetadata): set<nat> {
    set r | r in links && links[r].tree.monitor == monitor && Matches(r.keys, m) && AdmitsDriver(r.keys) :: r.owner
  }

  // NameOwnerChanged signals reach every subscription to them by looking into three registries.
  lemma OwnerLookupsSuffice(rules: Rules, links: Links, peers: Peers, ids: nat, missed: set<Rule>,
                            name: string, monitor: bool, m: MessageMetadata)
    requires WatchersPlaced(rules, links, peers, ids, missed)
    requires IsOwnerChanged(m, name) && name != DRIVER_NAME
    ensures ConcernedByDriver(links, monitor, m)
         == Subscribers(links, Tree(Wildcard, monitor), m)
          + Subscribers(links, Tree(OwnerRegistry(name), monitor), m)
          + Subscribers(links, Tree(Driver, monitor), m)
  {
    forall r | r in links && links[r].tree.monitor == monitor && Matches(r.keys, m)
      ensures AdmitsDriver(r.keys) <==>
        || links[r].tree == Tree(Wildcard, monitor)
        || links[r].tree == Tree(OwnerRegistry(name), monitor)
        || links[r].tree == Tree(Driver, monitor)
    {
      OwnerOfPlace(r.keys, links[r].tree.registry, name, m);
    }
  }

  lemma OwnerOfPlace(k: RuleKeys, reg: RegistryId, name: string, m: MessageMetadata)
    requires StandsRight(k, reg) && Matches(k, m) && IsOwnerChanged(m, name) && name != DRIVER_NAME
    ensures AdmitsDriver(k) <==>
      reg == Wildcard || reg == OwnerRegistry(name) || reg == Driver
  {
    if WatchesOwner(k) {
      assert k.args[0] == Some(name);
    }
  }

  // A monitor that watches the owner of "a.b" only never sees it change.
  lemma BlindMonitorExample(m: MessageMetadata)
    requires IsOwnerChanged(m, "a.b") && m.nArgs == 3 && m.args[0].element == 's'
    ensures var k := EMPTY.(sender := Some(DRIVER_NAME), member := Some(OWNER_CHANGED),
                            args := EMPTY.args[0 := Some("a.b")], nArgs := 1);
      && WellFormed(k) && Matches(k, m)
      && Home(k, map[], 0) == Some(NameOwnerChanged("a.b"))
      && var links: Links := map[Rule(0, k) := Link(Tree(NameOwnerChanged("a.b"), true), false)];
      && ConcernedByDriver(links, true, m) == {0}
      && Subscribers(links, Tree(Wildcard, true), m) + Subscribers(links, Tree(Driver, true), m) == {}
  {
    var k := EMPTY.(sender := Some(DRIVER_NAME), member := Some(OWNER_CHANGED),
                    args := EMPTY.args[0 := Some("a.b")], nArgs := 1);
    assert DRIVER_NAME[0] == 'o' && "a.b"[0] == 'a';
    assert WellFormed(k);
    assert Matches(k, m);
    var links: Links := map[Rule(0, k) := Link(Tree(NameOwnerChanged("a.b"), true), false)];
    assert Rule(0, k) in links;
    assert Rule(0, k).owner in ConcernedByDriver(links, true, m);
  }

  // ---------------------------------------------------------------- what was asked for

  // monitors, or peers that said Hello()
  predicate InRole(peers: Peers, id: nat, monitor: bool) {
    if monitor then id in peers && peers[id].monitor else Registered(peers, id)
  }

  // The rules that subscribers (or monitors) asked for and that concern a signal of s, linked or not.
  ghost function Wanted(rules: Rules, peers: Peers, monitor: bool, s: nat, queues: Names.Queues,
    m: MessageMetadata): set<Rule> {
    set r | r in rules && InRole(peers, r.owner, monitor) && Matches(r.keys, m) && SenderAdmits(r.keys, s, queues)
  }

  // ... and those that concern a signal of the driver
  ghost function WantedOfDriver(rules: Rules, peers: Peers, monitor: bool, m: MessageMetadata): set<Rule> {
    set r | r in rules && InRole(peers, r.owner, monitor) && Matches(r.keys, m) && AdmitsDriver(r.keys)
  }

  ghost function OwnersOfRules(rules: set<Rule>): set<nat> {
    set r | r in rules :: r.owner
  }

  // Who asked for a signal of peer s: a subscriber (or monitor) with a rule that matches it and names
  // no sender, the unique name of s, or a name that s is the primary owner of.
  lemma WantedIff(rules: Rules, peers: Peers, monitor: bool, s: nat, queues: Names.Queues, m: MessageMetadata, q: nat)
    ensures q in OwnersOfRules(Wanted(rules, peers, monitor, s, queues, m)) <==>
      && q in peers && (if monitor then peers[q].monitor else peers[q].registered)
      && exists r :: r in rules && r.owner == q && Matches(r.keys, m)
           && (r.keys.sender.Some? ==>
                 var n := r.keys.sender.value;
                 Address.FromString(n) == Address.Id(s) || (n in queues && queues[n] != [] && queues[n][0].owner == s))
  {
    var wanted := Wanted(rules, peers, monitor, s, queues, m);
    if q in OwnersOfRules(wanted) {
      var r :| r in wanted && r.owner == q;
      assert r in rules && Matches(r.keys, m);
    }
    forall r | r in rules && r.owner == q && Matches(r.keys, m)
      ensures r in wanted <==>
        InRole(peers, q, monitor) && SenderAdmits(r.keys, s, queues) {
    }
  }

  // Who asked for a signal of the driver: likewise, with a rule that names no sender or the driver.
  lemma WantedOfDriverIff(rules: Rules, peers: Peers, monitor: bool, m: MessageMetadata, q: nat)
    ensures q in OwnersOfRules(WantedOfDriver(rules, peers, monitor, m)) <==>
      && q in peers && (if monitor then peers[q].monitor else peers[q].registered)
      && exists r :: r in rules && r.owner == q && Matches(r.keys, m)
           && (r.keys.sender.Some? ==> r.keys.sender.value == "org.freedesktop.DBus")
  {
    var wanted := WantedOfDriver(rules, peers, monitor, m);
    if q in OwnersOfRules(wanted) {
      var r :| r in wanted && r.owner == q;
      assert r in rules && Matches(r.keys, m);
    }
    forall r | r in rules && r.owner == q && Matches(r.keys, m)
      ensures r in wanted <==> InRole(peers, q, monitor) && AdmitsDriver(r.keys) {
    }
  }

  // monitors link into the monitor trees, everybody else into the subscription trees
  ghost predicate LinksByRole(links: Links, peers: Peers) {
    forall r :: r in links ==>
      InRole(peers, r.owner, links[r].tree.monitor) && !InRole(peers, r.owner, !links[r].tree.monitor)
  }

  // Every owner of a rule outside of `found` also owns one in `found`.
  ghost predicate Covered(wanted: set<Rule>, found: set<Rule>) {
    forall r :: r in wanted && r !in found ==> exists q :: q in wanted && q in found && q.owner == r.owner
  }

  lemma CoveredIff(wanted: set<Rule>, found: set<Rule>)
    ensures OwnersOfRules(wanted * found) == OwnersOfRules(wanted) <==> Covered(wanted, found)
  {
    if Covered(wanted, found) {
      forall r | r in wanted ensures r.owner in OwnersOfRules(wanted * found) {
        if r !in found {
          var q :| q in wanted && q in found && q.owner == r.owner;
          assert q in wanted * found;
        } else {
          assert r in wanted * found;
        }
      }
    } else if OwnersOfRules(wanted * found) == OwnersOfRules(wanted) {
      forall r | r in wanted && r !in found ensures exists q :: q in wanted && q in found && q.owner == r.owner {
        assert r.owner in OwnersOfRules(wanted);
        var q :| q in wanted * found && q.owner == r.owner;
        assert q in wanted && q in found;
      }
    }
  }

  lemma NothingLacks(wanted: set<Rule>, found: set<Rule>)
    ensures wanted <= found ==> Covered(wanted, found)
  {
  }

  // A signal of s finds the owner of every wanted rule that is linked. A wanted rule that is
  // not linked names s, and was added while s was connected but had not called Hello().
  lemma OnlyGapRulesFail(rules: Rules, links: Links, peers: Peers, ids: nat, missed: set<Rule>,
                         queues: Names.Queues, monitor: bool, s: nat, m: MessageMetadata)
    requires Placed(rules, links, peers, ids, missed) && NamesOwnable(queues) && LinksByRole(links, peers)
    requires m.senderId == Some(s) && Registered(peers, s)
    ensures Concerned(links, monitor, s, queues, m)
         == OwnersOfRules(Wanted(rules, peers, monitor, s, queues, m) * links.Keys)
    ensures forall r :: r in Wanted(rules, peers, monitor, s, queues, m) && r !in links ==>
      r in missed && Subject(r.keys) == Some(s)
  {
    var wanted, concerned := Wanted(rules, peers, monitor, s, queues, m), Concerned(links, monitor, s, queues, m);
    forall r | r in wanted && r !in links ensures r in missed && Subject(r.keys) == Some(s) {
      assert UnlinkedForAReason(r, peers, ids, missed);
    }
    forall r | r in links && links[r].tree.monitor == monitor && Matches(r.keys, m) && SenderAdmits(r.keys, s, queues)
      ensures r in wanted * links.Keys {
    }
    forall r | r in wanted * links.Keys ensures r.owner in concerned {
    }
  }

  // Signals of s are delivered exactly as asked for if, and only if, everyone whose rule fell into
  // that gap has another rule that is linked and wants the signal; in particular if no rule naming
  // s ever did. The same holds for the monitors that see messages of s.
  lemma DeliveredExactlyIff(rules: Rules, links: Links, peers: Peers, ids: nat, missed: set<Rule>,
                            queues: Names.Queues, monitor: bool, s: nat, m: MessageMetadata)
    requires Placed(rules, links, peers, ids, missed) && NamesOwnable(queues) && LinksByRole(links, peers)
    requires m.senderId == Some(s) && Registered(peers, s)
    ensures var wanted := Wanted(rules, peers, monitor, s, queues, m);
      && (Concerned(links, monitor, s, queues, m) == OwnersOfRules(wanted) <==> Covered(wanted, links.Keys))
      && ((forall r :: r in missed && r !in links ==> Subject(r.keys) != Some(s)) ==> wanted <= links.Keys)
  {
    OnlyGapRulesFail(rules, links, peers, ids, missed, queues, monitor, s, m);
    CoveredIff(Wanted(rules, peers, monitor, s, queues, m), links.Keys);
  }

  // A rule with the unique name of peer 1 as its sender, added by peer 0 (or brought along when
  // it becomes a monitor) while peer 1 has connected but not called Hello(), is wanted afterwards
  // and never served.
  lemma GapExample(monitor: bool, m: MessageMetadata)
    requires m.senderId == Some(1)
    ensures var k := EMPTY.(sender := Some(Address.IdToString(1)), senderId := Some(1));
      var before := map[0 := Peer(!monitor, monitor, true), 1 := Peer(false, false, true)];
      var after := map[0 := Peer(!monitor, monitor, true), 1 := Peer(true, false, true)];
      && WellFormed(k)
      && Home(k, before, 2).None?
      && Wanted(map[Rule(0, k) := 1], after, monitor, 1, map[], m) == {Rule(0, k)}
      && Concerned(map[], monitor, 1, map[], m) == {}
  {
    Address.IdRoundTrip(1);
    DriverHasNoId(1);
  }

  // The registries that are visited for monitors hold the rules of this one, other than those in
  // the registry of the name itself.
  ghost function Scanned(links: Links, name: string): set<Rule> {
    set r | r in links && links[r].tree.registry != OwnerRegistry(name)
  }

  // A wanted rule about a signal of the driver that is not linked watches the unique name that the
  // signal is about. While that peer is on the bus, the rule is one that fell into the gap.
  lemma OnlyGapWatchersFail(rules: Rules, links: Links, peers: Peers, ids: nat, missed: set<Rule>,
                            name: string, monitor: bool, m: MessageMetadata)
    requires WatchersPlaced(rules, links, peers, ids, missed) && LinksByRole(links, peers)
    requires IsOwnerChanged(m, name) && name != DRIVER_NAME
    ensures ConcernedByDriver(links, monitor, m) == OwnersOfRules(WantedOfDriver(rules, peers, monitor, m) * links.Keys)
    ensures Subscribers(links, Tree(Wildcard, monitor), m) + Subscribers(links, Tree(Driver, monitor), m)
         == OwnersOfRules(WantedOfDriver(rules, peers, monitor, m) * Scanned(links, name))
    ensures forall r :: r in WantedOfDriver(rules, peers, monitor, m) && r !in links ==>
      && WatchesOwner(r.keys) && Target(r.keys) == Some(name) && Address.FromString(name).Id?
      && (MayRegister(peers, Address.FromString(name).id) ==> r in missed)
  {
    var wanted := WantedOfDriver(rules, peers, monitor, m);
    forall r | r in wanted && r !in links
      ensures WatchesOwner(r.keys) && Target(r.keys) == Some(name) && Address.FromString(name).Id?
      ensures MayRegister(peers, Address.FromString(name).id) ==> r in missed {
      assert Subject(r.keys).Some? && WatchesOwner(r.keys);
      assert UnlinkedForAReason(r, peers, ids, missed);
      assert r.keys.args[0] == Some(name);
    }
    forall r | r in links && links[r].tree.monitor == monitor && Matches(r.keys, m)
      ensures AdmitsDriver(r.keys) <==> r in wanted * links.Keys
      ensures links[r].tree.registry in {Wildcard, Driver} <==> r in wanted * Scanned(links, name)
    {
      OwnerOfPlace(r.keys, links[r].tree.registry, name, m);
    }
    LinkedOwners(links, monitor, m, wanted, name);
  }

  lemma LinkedOwners(links: Links, monitor: bool, m: MessageMetadata, wanted: set<Rule>, name: string)
    requires forall r :: r in wanted && r in links ==> links[r].tree.monitor == monitor && Matches(r.keys, m)
    requires forall r :: r in links && links[r].tree.monitor == monitor && Matches(r.keys, m) ==>
      && (AdmitsDriver(r.keys) <==> r in wanted * links.Keys)
      && (links[r].tree.registry in {Wildcard, Driver} <==> r in wanted * Scanned(links, name))
    ensures ConcernedByDriver(links, monitor, m) == OwnersOfRules(wanted * links.Keys)
    ensures Subscribers(links, Tree(Wildcard, monitor), m) + Subscribers(links, Tree(Driver, monitor), m)
         == OwnersOfRules(wanted * Scanned(links, name))
  {
    forall r | r in wanted * Scanned(links, name)
      ensures r.owner in Subscribers(links, Tree(Wildcard, monitor), m) + Subscribers(links, Tree(Driver, monitor), m) {
      assert links[r].tree == Tree(links[r].tree.registry, monitor);
    }
    forall r | r in wanted * links.Keys ensures r.owner in ConcernedByDriver(links, monitor, m) {
    }
  }

  // The signal about `name` reaches exactly the subscribers that want it if, and only if, everyone
  // whose watching rule is not linked has another rule that is linked and wants it. Signals about
  // names that are no unique names always do.
  lemma AnnouncedExactlyIff(rules: Rules, links: Links, peers: Peers, ids: nat, missed: set<Rule>,
                            name: string, m: MessageMetadata)
    requires WatchersPlaced(rules, links, peers, ids, missed) && LinksByRole(links, peers)
    requires IsOwnerChanged(m, name) && name != DRIVER_NAME
    ensures var wanted := WantedOfDriver(rules, peers, false, m);
      && (ConcernedByDriver(links, false, m) == OwnersOfRules(wanted) <==> Covered(wanted, links.Keys))
      && (!Address.FromString(name).Id? ==> wanted <= links.Keys)
      && ((Address.FromString(name).Id? && MayRegister(peers, Address.FromString(name).id)
           && forall r :: r in missed && r !in links ==> Target(r.keys) != Some(name)) ==> wanted <= links.Keys)
  {
    OnlyGapWatchersFail(rules, links, peers, ids, missed, name, false, m);
    CoveredIff(WantedOfDriver(rules, peers, false, m), links.Keys);
  }

  // A rule that watches peer 1, added while peer 1 has connected but not called Hello(), is not
  // served the signal that Hello() sends.
  lemma GapWatchExample(m: MessageMetadata)
    requires IsOwnerChanged(m, Address.IdToString(1)) && m.nArgs == 3 && m.args[0].element == 's'
    ensures var k := EMPTY.(sender := Some(DRIVER_NAME), member := Some(OWNER_CHANGED),
                            args := EMPTY.args[0 := Some(Address.IdToString(1))], nArgs := 1);
      var before := map[0 := Peer(true, false, true), 1 := Peer(false, false, true)];
      var after := map[0 := Peer(true, false, true), 1 := Peer(true, false, true)];
      && WellFormed(k)
      && Home(k, before, 2).None?
      && WantedOfDriver(map[Rule(0, k) := 1], after, false, m) == {Rule(0, k)}
      && ConcernedByDriver(map[], false, m) == {}
  {
    Address.IdRoundTrip(1);
    DriverHasNoId(1);
    var k := EMPTY.(sender := Some(DRIVER_NAME), member := Some(OWNER_CHANGED),
                    args := EMPTY.args[0 := Some(Address.IdToString(1))], nArgs := 1);
    assert DRIVER_NAME[0] == 'o';
    assert WellFormed(k);
    assert Matches(k, m);
  }

  // A signal of the driver is shown to monitors by looking into two registries only, and not into
  // the one of the name. All monitors that want it see it if, and only if, everyone whose wanted
  // rule stands there or is not linked has another rule that wants it and is linked elsewhere.
  lemma MonitorsSeeDriverIff(rules: Rules, links: Links, peers: Peers, ids: nat, missed: set<Rule>,
                             name: string, m: MessageMetadata)
    requires WatchersPlaced(rules, links, peers, ids, missed) && LinksByRole(links, peers)
    requires IsOwnerChanged(m, name) && name != DRIVER_NAME
    ensures var seen := Subscribers(links, Tree(Wildcard, true), m) + Subscribers(links, Tree(Driver, true), m);
      var wanted := WantedOfDriver(rules, peers, true, m);
      && seen <= OwnersOfRules(wanted)
      && (seen == OwnersOfRules(wanted) <==> Covered(wanted, Scanned(links, name)))
  {
    OnlyGapWatchersFail(rules, links, peers, ids, missed, name, true, m);
    CoveredIff(WantedOfDriver(rules, peers, true, m), Scanned(links, name));
  }

  lemma DriverHasNoId(id: nat)
    ensures Address.IdToString(id) != DRIVER_NAME
  {
    assert Address.IdToString(id)[0] == ':';
  }

  // Adding a rule a second time would move it to another registry exactly if it names a peer
  // id that was in the future when the rule was linked and is registered now.
  lemma RelinkMovesIff(k: RuleKeys, reg: RegistryId, peers: Peers, ids: nat)
    requires StandsRight(k, reg)
    requires forall id :: reg == OfPeer(k, id) ==> Registered(peers, id)
    ensures (Home(k, peers, ids).Some? && Home(k, peers, ids).value != reg) <==>
      Subject(k).Some? && Registered(peers, Subject(k).value) && reg == General(k)
  {
  }
}
