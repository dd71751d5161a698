/**
 The bus as one state machine (src/bus/peer.c, src/bus/driver.c, src/bus/bus.c): peers come
 and go, own names, call each other, subscribe to signals and wait for activations.
 */
module Bus {
  import opened Base
  import opened MatchKeys
  import opened MatchForest
  import opened Routing
  import opened BusState
  import Address
  import Names
  import Replies
  import MatchIndex
  import Activation

  // Applying a run of NameOwnerChanged records, each to the owners the previous ones left; None
  // if one of them does not name the owner that was in place.
  function ReplayAll(changes: seq<Names.NameChange>): Option<map<string, nat>> {
    if changes == [] then Some(map[])
    else
      match ReplayAll(changes[..|changes| - 1])
      case None => None
      case Some(owners) => Names.Replay(owners, changes[|changes| - 1])
  }

  function Recorded(changes: seq<Names.NameChange>, change: Option<Names.NameChange>): seq<Names.NameChange> {
    if change.Some? then changes + [change.value] else changes
  }

  // who owns a name: a well-known one the first in its queue, a unique one its peer
  function OwnerOf(queues: Names.Queues, peers: Peers, n: string): Option<nat> {
    if n == "" || n[0] != ':' then Names.Primary(Names.QueueOf(queues, n))
    else
      var p := Address.IdOf(n);
      if Registered(peers, p) && n == Address.IdToString(p) then Some(p) else None
  }

  lemma OwnerOfUnique(queues: Names.Queues, peers: Peers, p: nat)
    ensures OwnerOf(queues, peers, Address.IdToString(p)) == if p in peers && peers[p].registered then Some(p) else None
  {
    Address.IdOfPrinted(p);
  }

  // Whoever has followed these signals knows the owner of every name.
  ghost predicate ReplaysTo(changes: seq<Names.NameChange>, queues: Names.Queues, peers: Peers) {
    && ReplayAll(changes).Some?
    && forall n :: Names.Lookup(ReplayAll(changes).value, n) == OwnerOf(queues, peers, n)
  }

  // one operation on a queue and its record keep the replay exact
  lemma ReplayStep(changes: seq<Names.NameChange>, queues: Names.Queues, peers: Peers, n: string, q: Names.Queue)
    requires ReplaysTo(changes, queues, peers) && (n != "" ==> n[0] != ':')
    ensures ReplaysTo(Recorded(changes, Names.ChangeOf(n, Names.QueueOf(queues, n), q)), queues[n := q], peers)
  {
    forall m
      ensures OwnerOf(queues[n := q], peers, m) == if m == n then Names.Primary(q) else OwnerOf(queues, peers, m) {
    }
    assert OwnerOf(queues, peers, n) == Names.Primary(Names.QueueOf(queues, n));
    var change := Names.ChangeOf(n, Names.QueueOf(queues, n), q);
    hide OwnerOf;
    if change.Some? {
      ReplayMore(changes, change.value);
    }
  }

  lemma ReplayMore(changes: seq<Names.NameChange>, c: Names.NameChange)
    requires ReplayAll(changes).Some? && c.oldOwner != c.newOwner
    requires Names.Lookup(ReplayAll(changes).value, c.name) == c.oldOwner
    ensures ReplayAll(changes + [c]).Some?
    ensures forall n ::
      Names.Lookup(ReplayAll(changes + [c]).value, n)
      == if n == c.name then c.newOwner else Names.Lookup(ReplayAll(changes).value, n)
  {
    var more := changes + [c];
    assert more[..|more| - 1] == changes && more[|more| - 1] == c;
  }

  // A peer that says Hello(), or leaves, and its record keep the replay exact, too.
  lemma ReplayPeer(changes: seq<Names.NameChange>, queues: Names.Queues, peers: Peers, p: nat)
    requires p in peers && peers[p].registered
    ensures var n := Address.IdToString(p);
      && (ReplaysTo(changes, queues, peers - {p}) ==>
            ReplaysTo(changes + [Names.NameChange(n, None, Some(p))], queues, peers))
      && (ReplaysTo(changes, queues, peers) ==>
            ReplaysTo(changes + [Names.NameChange(n, Some(p), None)], queues, peers - {p}))
  {
    var n := Address.IdToString(p);
    Address.IdOfPrinted(p);
    forall m ensures OwnerOf(queues, peers - {p}, m) == if m == n then None else OwnerOf(queues, peers, m) {
    }
    assert OwnerOf(queues, peers, n) == Some(p);
    hide OwnerOf;
    if ReplaysTo(changes, queues, peers - {p}) {
      ReplayMore(changes, Names.NameChange(n, None, Some(p)));
    }
    if ReplaysTo(changes, queues, peers) {
      ReplayMore(changes, Names.NameChange(n, Some(p), None));
    }
  }

  // Only registering and unregistering changes the owners of unique names.
  lemma OwnersSame(changes: seq<Names.NameChange>, queues: Names.Queues, peers: Peers, peers': Peers)
    requires forall p :: Registered(peers, p) <==> Registered(peers', p)
    ensures ReplaysTo(changes, queues, peers) <==> ReplaysTo(changes, queues, peers')
  {
    forall n ensures OwnerOf(queues, peers, n) == OwnerOf(queues, peers', n) {
    }
    hide OwnerOf;
  }

  lemma NotRegistered(changes: seq<Names.NameChange>, queues: Names.Queues, peers: Peers, p: nat)
    requires p in peers ==> !peers[p].registered
    ensures ReplaysTo(changes, queues, peers) <==> ReplaysTo(changes, queues, peers - {p})
  {
    OwnersSame(changes, queues, peers, peers - {p});
  }

  lemma OwnersJoined(changes: seq<Names.NameChange>, queues: Names.Queues, peers: Peers, p: nat)
    requires p !in peers
    ensures ReplaysTo(changes, queues, peers) <==> ReplaysTo(changes, queues, peers[p := Peer(false, false, true)])
  {
    OwnersSame(changes, queues, peers, peers[p := Peer(false, false, true)]);
  }

  lemma OwnersRegister(changes: seq<Names.NameChange>, queues: Names.Queues, peers: Peers, p: nat)
    requires p in peers && !peers[p].registered
    ensures ReplaysTo(changes, queues, peers) <==> ReplaysTo(changes, queues, peers[p := SUBSCRIBER] - {p})
  {
    OwnersSame(changes, queues, peers, peers[p := SUBSCRIBER] - {p});
  }

  lemma OwnersGone(changes: seq<Names.NameChange>, queues: Names.Queues, peers: Peers, p: nat)
    ensures ReplaysTo(changes, queues, peers[p := GONE]) <==> ReplaysTo(changes, queues, peers - {p})
  {
    OwnersSame(changes, queues, peers[p := GONE], peers - {p});
  }

  // some names of p are released
  function Released(queues: Names.Queues, p: nat, done: set<string>): Names.Queues {
    map n | n in queues :: if n in done then Names.Others(queues[n], p) else queues[n]
  }

  lemma ReleasedMore(queues: Names.Queues, p: nat, all: set<string>, todo: set<string>, n: string)
    requires n in todo && todo <= all && n in Released(queues, p, all - todo)
    ensures var q := Names.QueueOf(Released(queues, p, all - todo), n);
      Released(queues, p, all - todo)[n := Names.Others(q, p)] == Released(queues, p, all - (todo - {n}))
    ensures todo - {n} <= all
  {
  }

  lemma NothingBut(all: set<string>)
    ensures all - all == {} && all - {} == all
  {
  }

  lemma AllReleased(queues: Names.Queues, p: nat, done: set<string>)
    requires forall n :: n in queues && n !in done ==> Names.Others(queues[n], p) == queues[n]
    ensures Released(queues, p, done) == QueuesWithout(queues, p)
  {
  }

  lemma RecordedIs(changes: seq<Names.NameChange>, change: Option<Names.NameChange>)
    ensures Recorded(changes, change) == if change.Some? then changes + [change.value] else changes
  {
  }

  // A record with another old owner than the one in place, or without a change, does not replay.
  lemma WrongOwnerDoesNotReplay(changes: seq<Names.NameChange>, c: Names.NameChange)
    requires ReplayAll(changes).Some?
    requires Names.Lookup(ReplayAll(changes).value, c.name) != c.oldOwner || c.oldOwner == c.newOwner
    ensures ReplayAll(changes + [c]).None?
  {
    assert (changes + [c])[..|changes|] == changes;
  }

  lemma ReplaySame(changes: seq<Names.NameChange>, queues: Names.Queues, n: string)
    ensures Recorded(changes, Names.ChangeOf(n, Names.QueueOf(queues, n), Names.QueueOf(queues, n))) == changes
  {
  }

  // how the outstanding replies end when peer p disconnects: those it waited for, then those it owed
  ghost function CallsDropped(slots: set<Replies.Slot>, p: nat): map<Replies.Slot, Replies.Outcome> {
    map s | s in slots && s.owner == p :: Replies.CallerGone
  }

  ghost function CallsFailed(slots: set<Replies.Slot>, p: nat): map<Replies.Slot, Replies.Outcome> {
    map s | s in slots && s.callee == p :: Replies.NoReply
  }

  ghost function CallsEnded(slots: set<Replies.Slot>, p: nat): map<Replies.Slot, Replies.Outcome> {
    map s | s in slots && (s.owner == p || s.callee == p) ::
      if s.owner == p then Replies.CallerGone else Replies.NoReply
  }

  lemma CallsEndInTurn(slots: set<Replies.Slot>, p: nat, a: seq<Replies.Event>, b: seq<Replies.Event>,
    c: seq<Replies.Event>)
    requires Replies.Settles(a, b, CallsDropped(slots, p))
    requires Replies.Settles(b, c, CallsFailed(SlotsNotFrom(slots, p), p))
    ensures Replies.Settles(a, c, CallsEnded(slots, p))
  {
    var dropped, failed := CallsDropped(slots, p), CallsFailed(SlotsNotFrom(slots, p), p);
    Replies.SettlesBoth(a, b, c, dropped, failed);
    assert dropped + failed == CallsEnded(slots, p);
  }

  datatype NameReply =
    | NameInvalid
    | NameReserved
    | NameUnique
    | Requested(request: Names.RequestReply)
    | Left(release: Names.ReleaseReply)

  datatype SendResult =
    | Sent
    | ExpectedReplyExists
    | QuotaExceeded
    | NotDelivered
    | Waiting                 // queued until the name is activated
    | DestinationNotFound
    | NotActivatable
    | AlreadyRunning

  class Bus {
    var peers: Peers
    var ids: nat                       // peers->ids
    var nPeers: nat
    var nRegistered: nat
    var nMonitors: nat
    var rules: Rules                   // the peers' owned_matches with n_user_refs
    const names: Names.NameRegistry
    const replies: Replies.ReplyRegistries
    const matches: MatchIndex.MatchIndex
    var activations: map<string, Activation.Activation>
    var activationIds: nat
    ghost var missed: set<Rule>
    ghost var changes: seq<Names.NameChange>   // all NameOwnerChanged signals so far

    ghost function Now(): View
      reads this, names, replies, matches
    {
      View(peers, ids, nPeers, nRegistered, nMonitors, names.queues, replies.slots, rules, matches.links, missed)
    }

    ghost predicate PartsValid()
      reads names, replies, matches
    {
      names.Valid() && replies.Valid() && matches.Valid()
    }

    // nothing waits for a name that these queues give an owner
    ghost predicate ActivationSoundWith(n: string, queues: Names.Queues)
      requires n in activations
      reads this`activations, this`activationIds, activations.Values
    {
      && activations[n].Valid()
      && activations[n].pending <= activationIds
      && (Names.Primary(Names.QueueOf(queues, n)).Some? ==> activations[n].Quiet())
    }

    ghost predicate ActivationSound(n: string)
      requires n in activations
      reads this`activations, this`activationIds, names`queues, activations.Values
    {
      ActivationSoundWith(n, names.queues)
    }

    // a name with an owner has nothing queued for activation
    ghost predicate ActivationsSound()
      reads this`activations, this`activationIds, names`queues, activations.Values
    {
      && (forall m, n :: m in activations && n in activations && m != n ==> activations[m] != activations[n])
      && (forall n :: n in activations ==> ActivationSound(n))
    }

    ghost predicate Replays()
      reads this`changes, this`peers, names`queues
    {
      ReplaysTo(changes, names.queues, peers)
    }

    // ... without peer p, which is about to say Hello(), or is known to go
    ghost predicate ReplaysWithout(p: nat)
      reads this`changes, this`peers, names`queues
    {
      ReplaysTo(changes, names.queues, peers - {p})
    }

    // The invariant of every reachable state
    ghost predicate Valid()
      reads this, names, replies, matches, activations.Values
    {
      PartsValid() && Sound(Now()) && ActivationsSound() && Replays()
    }

    // In every reachable state, nothing waits for a name that has an owner.
    lemma NothingWaits(n: string)
      requires Valid() && n in activations && Primary(n).Some?
      ensures activations[n].requests == [] && activations[n].messages == []
    {
      assert ActivationSound(n);
    }

    // Whoever has followed the signals of a run knows who owns a well-known name, and which unique names
    // there are.
    lemma FollowersKnow(n: string, p: nat)
      requires Valid()
      ensures ReplayAll(changes).Some?
      ensures n == "" || n[0] != ':' ==> Names.Lookup(ReplayAll(changes).value, n) == Primary(n)
      ensures Names.Lookup(ReplayAll(changes).value, Address.IdToString(p))
        == if p in peers && peers[p].registered then Some(p) else None
    {
      OwnerOfUnique(names.queues, peers, p);
    }

    constructor ()
      ensures Valid() && Now() == EMPTY_BUS && activations == map[] && changes == []
      ensures fresh(names) && fresh(replies) && fresh(matches)
    {
      peers, ids, nPeers, nRegistered, nMonitors := map[], 0, 0, 0, 0;
      rules, missed, changes := map[], {}, [];
      names := new Names.NameRegistry();
      replies := new Replies.ReplyRegistries();
      matches := new MatchIndex.MatchIndex();
      activations, activationIds := map[], 0;
      new;
      EmptyBusSound();
    }

    // ---------------------------------------------------------------- peers

    // peer_new_with_fd()
    method Connect() returns (p: nat)
      requires Valid()
      modifies this
      ensures Valid() && Now() == Joined(old(Now())) && p == old(ids)
      ensures activations == old(activations) && changes == old(changes)
    {
      hide MatchIndex.MatchIndex.Valid;
      hide Names.NameRegistry.Valid;
      hide Replies.ReplyRegistries.Valid;
      hide Sound;
      hide ActivationsSound;
      hide ReplaysTo;
      JoinedSound(Now());
      OwnersJoined(changes, names.queues, peers, ids);
      p := ids;
      peers := peers[p := Peer(false, false, true)];
      ids := ids + 1;
      nPeers := nPeers + 1;
    }

    // driver_method_hello()
    method Hello(p: nat)
      requires Valid() && p in peers && peers[p] == Peer(false, false, true)
      modifies this
      ensures Valid() && Now() == Switched(old(Now()), p, SUBSCRIBER)
      ensures activations == old(activations)
      ensures changes == old(changes) + [Names.NameChange(Address.IdToString(p), None, Some(p))]
    {
      hide *;
      Register(p);
      SoundAnnounceable();
      RegisteredIs(p);
      ReplaysAre();
      ReplayPeer(changes, names.queues, peers, p);
      NowIs();
      var subscribers, monitors := AnnouncePeer(p, true);
      NowIs();
      ReplaysAre();
      ValidAgain();
    }

    lemma RegisteredIs(p: nat)
      ensures Registered(peers, p) <==> p in peers && peers[p].registered
    {
    }

    lemma ReplaysAre()
      ensures Replays() <==> ReplaysTo(changes, names.queues, peers)
      ensures forall p :: ReplaysWithout(p) <==> ReplaysTo(changes, names.queues, peers - {p})
    {
    }

    // peer_register()
    method Register(p: nat)
      requires Valid() && p in peers && peers[p] == Peer(false, false, true)
      modifies this
      ensures PartsValid() && names.Valid() && matches.Valid() && Sound(Now()) && ActivationsSound()
      ensures ReplaysWithout(p) && Now() == Switched(old(Now()), p, SUBSCRIBER) && Registered(peers, p)
      ensures activations == old(activations) && changes == old(changes)
    {
      hide MatchIndex.MatchIndex.Valid;
      hide Names.NameRegistry.Valid;
      hide Replies.ReplyRegistries.Valid;
      hide Sound;
      hide ActivationsSound;
      hide ReplaysTo;
      SoundUnreferenced(Now(), p);
      SwitchedSound(Now(), p, SUBSCRIBER);
      OwnersRegister(changes, names.queues, peers, p);
      peers := peers[p := SUBSCRIBER];
      nRegistered := nRegistered + 1;
    }

    // peer_free(): every emptiness assertion in it holds
    method Free(p: nat)
      requires Valid() && p in peers && peers[p] == GONE
      modifies this
      ensures Valid() && nPeers < old(nPeers) && Now() == Freed(old(Now()), p)
      ensures Unreferenced(p, names.queues, replies.slots, rules, matches.links)
      ensures activations == old(activations) && changes == old(changes)
    {
      hide MatchIndex.MatchIndex.Valid;
      hide Names.NameRegistry.Valid;
      hide Replies.ReplyRegistries.Valid;
      hide Sound;
      hide ActivationsSound;
      hide ReplaysTo;
      SoundUnreferenced(Now(), p);
      FreedSound(Now(), p);
      OwnersSame(changes, names.queues, peers, peers - {p});
      peers := peers - {p};
      nPeers := nPeers - 1;
    }

    // ---------------------------------------------------------------- match rules

    // peer_link_match(): the caller's rule counts on the side of its role
    method LinkMatch(r: Rule, monitor: bool)
      requires matches.Valid()
      requires r in matches.links && Home(r.keys, peers, ids).Some? ==>
        matches.links[r] == Link(Tree(Home(r.keys, peers, ids).value, monitor), !monitor)
      modifies matches
      ensures matches.Valid()
      ensures matches.links == match Home(r.keys, peers, ids)
                               case None => old(matches.links)
                               case Some(reg) => old(matches.links)[r := Link(Tree(reg, monitor), !monitor)]
    {
      var home := Home(r.keys, peers, ids);
      if home.Some? {
        matches.LinkRule(r, Link(Tree(home.value, monitor), !monitor));
      }
    }

    // peer_add_match(); false if the quota is exceeded
    method AddMatch(p: nat, k: RuleKeys) returns (ok: bool)
      requires Valid() && Registered(peers, p) && Relinkable(Now(), Rule(p, k))
      modifies this, matches
      ensures Valid()
      ensures Now() == if ok then Subscribed(old(Now()), Rule(p, k)) else old(Now())
      ensures activations == old(activations) && changes == old(changes)
    {
      var r := Rule(p, k);
      hide MatchIndex.MatchIndex.Valid;
      hide Names.NameRegistry.Valid;
      hide Replies.ReplyRegistries.Valid;
      hide Sound;
      hide ActivationsSound;
      hide Replays;
      hide Home;
      LinkOfSubscriber(Now(), r);
      SubscribedSound(Now(), r);
      hide Subscribed;
      ok := *;
      if ok {
        RefRule(r);
      }
    }

    // match_owner_ref_rule() within the quota, and the link
    method RefRule(r: Rule)
      requires matches.Valid() && !IsMonitor(peers, r.owner)
      requires r in matches.links && Home(r.keys, peers, ids).Some? ==>
        matches.links[r] == Link(Tree(Home(r.keys, peers, ids).value, false), true)
      modifies this`missed, this`rules, matches
      ensures matches.Valid() && Now() == Subscribed(old(Now()), r)
    {
      hide MatchIndex.MatchIndex.Valid;
      hide Home;
      if Home(r.keys, peers, ids).None? && r !in matches.links {
        missed := missed + {r};
      }
      LinkMatch(r, false);
      rules := rules[r := (if r in rules then rules[r] else 0) + 1];
    }

    // match_rule_user_unref()
    method UnrefRule(r: Rule)
      requires matches.Valid() && r in rules && rules[r] > 0
      modifies this`rules, matches
      ensures matches.Valid()
      ensures Now() == Unsubscribed(old(Now()), r)
    {
      if rules[r] > 1 {
        rules := rules[r := rules[r] - 1];
      } else {
        rules := rules - {r};
        matches.UnlinkRule(r);
      }
    }

    // peer_remove_match()
    method RemoveMatch(p: nat, k: RuleKeys) returns (found: bool)
      requires Valid() && Registered(peers, p)
      modifies this`rules, matches
      ensures Valid() && found == (Rule(p, k) in old(rules))
      ensures Now() == if found then Unsubscribed(old(Now()), Rule(p, k)) else old(Now())
    {
      hide MatchIndex.MatchIndex.Valid;
      hide Names.NameRegistry.Valid;
      hide Replies.ReplyRegistries.Valid;
      hide Sound;
      hide ActivationsSound;
      hide Replays;
      var r := Rule(p, k);
      found := r in rules;
      if found {
        UnsubscribedRuleSound(Now(), r);
        UnrefRule(r);
      }
    }

    // ---------------------------------------------------------------- disconnecting

    method DrainRule(r: Rule)
      requires matches.Valid() && r in rules && rules[r] > 0
      modifies this`rules, matches
      ensures matches.Valid()
      ensures rules == old(rules) - {r} && matches.links == old(matches.links) - {r}
    {
      hide MatchIndex.MatchIndex.Valid;
      while r in rules
        invariant matches.Valid()
        invariant r in rules ==>
          rules[r] > 0 && rules == old(rules)[r := rules[r]] && matches.links == old(matches.links)
        invariant r !in rules ==> rules == old(rules) - {r} && matches.links == old(matches.links) - {r}
        decreases r in rules, if r in rules then rules[r] else 0
      {
        UnrefRule(r);
      }
    }

    // peer_flush_matches(): one reference after the other, until no rule is left
    method FlushMatches(p: nat)
      requires matches.Valid()
      requires forall r :: r in rules ==> rules[r] > 0
      requires forall r :: r in matches.links ==> r in rules
      modifies this`rules, matches
      ensures matches.Valid()
      ensures rules == RulesOfOthers(old(rules), p)
      ensures matches.links == LinksOfOthers(old(matches.links), p)
    {
      hide MatchIndex.MatchIndex.Valid;
      var mine := set r | r in rules && r.owner == p;
      ghost var all := mine;
      while mine != {}
        invariant matches.Valid() && mine <= all
        invariant forall r :: r in mine ==> r in rules && rules[r] > 0
        invariant rules == old(rules) - (all - mine)
        invariant matches.links == old(matches.links) - (all - mine)
      {
        var r :| r in mine;
        DrainRule(r);
        mine := mine - {r};
      }
      assert all - mine == all;
    }

    // the caller side of the expected replies
    method DropCalls(p: nat)
      requires replies.Valid()
      modifies replies
      ensures replies.Valid()
      ensures replies.slots == SlotsNotFrom(old(replies.slots), p)
      ensures Replies.Settles(old(replies.log), replies.log, CallsDropped(old(replies.slots), p))
    {
      ghost var was, done: map<Replies.Slot, Replies.Outcome> := replies.slots, map[];
      while Replies.ListOf(replies.lists, p) != []
        invariant replies.Valid() && replies.slots <= was
        invariant forall s :: s in was && s.owner != p ==> s in replies.slots
        invariant done == map s | s in was - replies.slots :: Replies.CallerGone
        invariant Replies.Settles(old(replies.log), replies.log, done)
        decreases replies.slots
      {
        var s := Replies.ListOf(replies.lists, p)[0];
        ListedSlot(p, s);
        Replies.SettlesOne(old(replies.log), replies.log, done, s, Replies.CallerGone);
        hide Replies.Settles;
        replies.Free(s, Replies.CallerGone);
        done := done[s := Replies.CallerGone];
      }
      assert Replies.ListHolds(replies.lists, replies.slots, p);
      assert done == CallsDropped(was, p);
    }

    lemma ListedSlot(p: nat, s: Replies.Slot)
      requires replies.Valid() && s in Replies.ListOf(replies.lists, p)
      ensures s in replies.slots && s.owner == p
    {
      assert Replies.ListHolds(replies.lists, replies.slots, p);
    }

    // the callee side: the callers are told that no reply will come
    method FailCalls(p: nat)
      requires replies.Valid()
      modifies replies
      ensures replies.Valid()
      ensures replies.slots == SlotsNotTo(old(replies.slots), p)
      ensures Replies.Settles(old(replies.log), replies.log, CallsFailed(old(replies.slots), p))
    {
      ghost var was, done: map<Replies.Slot, Replies.Outcome> := replies.slots, map[];
      while Replies.TreeOf(replies.trees, p) != map[]
        invariant replies.Valid() && replies.slots <= was
        invariant forall s :: s in was && s.callee != p ==> s in replies.slots
        invariant done == map s | s in was - replies.slots :: Replies.NoReply
        invariant Replies.Settles(old(replies.log), replies.log, done)
        decreases replies.slots
      {
        assert Replies.TreeHolds(Replies.TreeOf(replies.trees, p), replies.slots, p);
        var k :| k in Replies.TreeOf(replies.trees, p);
        var s := Replies.TreeOf(replies.trees, p)[k];
        Replies.SettlesOne(old(replies.log), replies.log, done, s, Replies.NoReply);
        hide Replies.Settles;
        replies.Free(s, Replies.NoReply);
        done := done[s := Replies.NoReply];
      }
      assert Replies.TreeHolds(Replies.TreeOf(replies.trees, p), replies.slots, p);
      assert done == CallsFailed(was, p);
    }

    // peer_release_name_ownership(), with the record of the change
    method ReleaseOne(p: nat, n: string)
      requires ActivationsSound() && Replays() && Announceable() && n in names.Owned(p)
      modifies names, this`changes
      ensures ActivationsSound() && Replays() && Announceable()
      ensures names.queues == old(names.queues)[n := Names.Others(Names.QueueOf(old(names.queues), n), p)]
      ensures names.Owned(p) == old(names.Owned(p)) - {n}
    {
      hide *;
      AnnounceableParts();
      StillAnnounceable(p, n);
      ReplaysAre();
      ReplayStep(changes, names.queues, peers, n, Names.Others(Names.QueueOf(names.queues, n), p));
      var change := DropName(p, n);
      assert Announceable() by {
        AnnounceableAgain();
      }
      if change.Some? {
        var subscribers, monitors := AnnounceChange(change.value);
      }
      RecordedIs(old(changes), change);
      ReplaysAre();
    }

    lemma AnnounceableParts()
      requires Announceable()
      ensures names.Valid() && NamesOwnable(names.queues) && RulesAnnounceable() && matches.Valid()
    {
    }

    lemma AnnounceableAgain()
      requires names.Valid() && NamesOwnable(names.queues) && RulesAnnounceable()
      ensures Announceable()
    {
    }

    // name_ownership_release()
    method DropName(p: nat, n: string) returns (change: Option<Names.NameChange>)
      requires names.Valid() && ActivationsSound() && n in names.Owned(p)
      modifies names
      ensures names.Valid() && ActivationsSound()
      ensures change.Some? ==> change.value.name == n
      ensures var q := Names.QueueOf(old(names.queues), n); change == Names.ChangeOf(n, q, Names.Others(q, p))
      ensures names.queues == old(names.queues)[n := Names.Others(Names.QueueOf(old(names.queues), n), p)]
      ensures names.Owned(p) == old(names.Owned(p)) - {n}
    {
      hide Names.NameRegistry.Valid;
      ghost var q := Names.QueueOf(names.queues, n);
      QuietStays(n, Names.Others(q, p));
      hide Names.Others;
      hide ActivationsSound;
      change := names.ReleaseOwnership(p, n);
      hide Names.ChangeOf;
      SoundAgain();
    }

    ghost predicate SoundWith(queues: Names.Queues)
      reads this`activations, this`activationIds, activations.Values
    {
      && (forall m, n :: m in activations && n in activations && m != n ==> activations[m] != activations[n])
      && forall n :: n in activations ==> ActivationSoundWith(n, queues)
    }

    // a queue that gets no new owner asks nothing of the activations
    lemma QuietStays(n: string, q: Names.Queue)
      requires ActivationsSound() && (q != [] ==> Names.QueueOf(names.queues, n) != [])
      ensures SoundWith(names.queues[n := q])
    {
      forall m | m in activations ensures ActivationSoundWith(m, names.queues[n := q]) {
        assert ActivationSound(m);
      }
    }

    lemma SoundAgain()
      requires SoundWith(names.queues)
      ensures ActivationsSound()
    {
      forall m | m in activations ensures ActivationSound(m) {
      }
    }

    // the names the peer owns or waits for
    method ReleaseNames(p: nat)
      requires names.Valid() && ActivationsSound() && Replays() && Announceable()
      modifies names, this`changes
      ensures names.Valid() && ActivationsSound() && Replays() && Announceable()
      ensures names.queues == QueuesWithout(old(names.queues), p)
    {
      hide *;
      NoneReleased(p);
      var todo := names.Owned(p);
      ghost var all, before := todo, names.queues;
      NothingBut(all);
      while todo != {}
        invariant names.Valid() && ActivationsSound() && Replays() && Announceable()
        invariant todo == names.Owned(p) && todo <= all
        invariant names.queues == Released(before, p, all - todo)
      {
        var n :| n in todo;
        QueuedBefore(p, n);
        ReleasedMore(before, p, all, todo, n);
        ReleaseOne(p, n);
        AnnounceableParts();
        todo := todo - {n};
      }
      NothingBut(all);
      AllReleased(before, p, all);
    }

    // before the first release
    lemma NoneReleased(p: nat)
      requires names.Valid()
      ensures names.queues == Released(names.queues, p, {})
      ensures forall n :: n in names.queues && n !in names.Owned(p) ==>
        Names.Others(names.queues[n], p) == names.queues[n]
    {
      forall n | n in names.queues && n !in names.Owned(p)
        ensures Names.Others(names.queues[n], p) == names.queues[n] {
        names.OwnedIffQueued(p, n);
        Names.OthersOfOther(names.queues[n], p);
      }
    }

    lemma QueuedBefore(p: nat, n: string)
      requires names.Valid() && n in names.Owned(p)
      ensures n in names.queues
    {
      names.OwnedIffQueued(p, n);
    }

    // peer_unregister() or peer_stop_monitor()
    method LayDown(p: nat)
      requires p in peers && !(peers[p].registered && peers[p].monitor)
      requires (peers[p].registered ==> nRegistered > 0) && (peers[p].monitor ==> nMonitors > 0)
      modifies this`peers, this`nRegistered, this`nMonitors
      ensures peers == old(peers)[p := GONE]
      ensures nRegistered == Recounted(old(nRegistered), old(peers)[p].registered, false)
      ensures nMonitors == Recounted(old(nMonitors), old(peers)[p].monitor, false)
    {
      if peers[p].registered {
        nRegistered := nRegistered - 1;
      } else if peers[p].monitor {
        nMonitors := nMonitors - 1;
      }
      peers := peers[p := GONE];
    }

    // the first half of driver_goodbye(): what the peer asked for
    method Detach(p: nat)
      requires PartsValid() && ActivationsSound() && Replays() && Announceable()
      requires forall r :: r in rules ==> rules[r] > 0
      requires forall r :: r in matches.links ==> r in rules
      modifies this`rules, this`changes, names, replies, matches
      ensures PartsValid() && ActivationsSound() && ReplaysWithout(p) && Announceable()
      ensures rules == RulesOfOthers(old(rules), p)
      ensures matches.links == Outside(LinksOfOthers(old(matches.links), p), PeerSender(p))
      ensures names.queues == QueuesWithout(old(names.queues), p)
      ensures replies.slots == SlotsNotFrom(old(replies.slots), p)
      ensures Replies.Settles(old(replies.log), replies.log, CallsDropped(old(replies.slots), p))
    {
      hide Replies.Settles;
      hide CallsDropped;
      hide MatchIndex.MatchIndex.Valid;
      hide Names.NameRegistry.Valid;
      hide Replies.ReplyRegistries.Valid;
      hide ActivationsSound;
      hide Replays;
      hide RulesOfOthers;
      hide LinksOfOthers;
      hide Outside;
      hide QueuesWithout;
      hide SlotsNotFrom;
      DetachedAnnounceable(p);
      FlushMatches(p);
      DropCalls(p);
      matches.Flush(PeerSender(p));
      ReleaseNames(p);
      hide Announceable;
      Leave(p);
    }

    // the unique name goes last, while the peer is still registered
    method Leave(p: nat)
      requires Replays() && Announceable()
      modifies this`changes
      ensures ReplaysWithout(p) && Announceable()
      ensures changes == old(changes) +
        if Registered(peers, p) then [Names.NameChange(Address.IdToString(p), Some(p), None)] else []
    {
      hide *;
      RegisteredIs(p);
      ReplaysAre();
      if p in peers && peers[p].registered {
        ReplayPeer(changes, names.queues, peers, p);
        var subscribers, monitors := AnnouncePeer(p, false);
      } else {
        NotRegistered(changes, names.queues, peers, p);
      }
      ReplaysAre();
    }

    // driver_goodbye(): afterwards nothing refers to the peer
    method Goodbye(p: nat)
      requires Valid() && p in peers
      modifies this, names, replies, matches
      ensures Valid() && Now() == Departed(old(Now()), p)
      ensures Unreferenced(p, names.queues, replies.slots, rules, matches.links)
      ensures activations == old(activations)
      ensures Replies.Settles(old(replies.log), replies.log, CallsEnded(old(replies.slots), p))
    {
      hide *;
      ValidParts();
      NowIs();
      DepartedSound(Now(), p);
      Depart(p);
      NowIs();
      ValidAgain();
    }

    // all of it but that the result is sound
    method Depart(p: nat)
      requires Valid() && p in peers
      modifies this, names, replies, matches
      ensures PartsValid() && ActivationsSound() && Replays() && Now() == Departed(old(Now()), p)
      ensures activations == old(activations)
      ensures Replies.Settles(old(replies.log), replies.log, CallsEnded(old(replies.slots), p))
    {
      hide *;
      ValidParts();
      NowIs();
      DepartedIs(Now(), p);
      RulesCounted(Now());
      RolesCounted(Now(), p);
      SoundAnnounceable();
      Detach(p);
      PartsAre();
      ReplaysAre();
      LayDown(p);
      OwnersGone(changes, names.queues, old(peers), p);
      ReplaysAre();
      matches.Flush(PeerOwnerChanged(p));
      ghost var log := replies.log;
      FailCalls(p);
      PartsAre();
      CallsEndInTurn(old(replies.slots), p, old(replies.log), log, replies.log);
      NowIs();
    }

    lemma PartsAre()
      ensures PartsValid() <==> names.Valid() && replies.Valid() && matches.Valid()
    {
    }

    lemma ValidParts()
      requires Valid()
      ensures PartsValid() && names.Valid() && replies.Valid() && matches.Valid()
      ensures Sound(Now()) && ActivationsSound() && Replays()
    {
    }

    lemma NowIs()
      ensures Now() == View(peers, ids, nPeers, nRegistered, nMonitors, names.queues, replies.slots, rules,
        matches.links, missed)
    {
    }

    lemma ValidAgain()
      requires PartsValid() && Sound(Now()) && ActivationsSound() && Replays()
      ensures Valid()
    {
    }

    // ---------------------------------------------------------------- monitors

    // peer_become_monitor(): the rules are linked once per reference
    method BecomeMonitor(p: nat, wanted: Rules)
      requires Valid() && p in peers && peers[p] == GONE
      requires forall r :: r in wanted ==> r.owner == p && wanted[r] > 0
      modifies this, matches
      ensures Valid() && Now() == Monitoring(old(Now()), p, wanted)
      ensures activations == old(activations) && changes == old(changes)
    {
      hide MatchIndex.MatchIndex.Valid;
      hide Names.NameRegistry.Valid;
      hide Replies.ReplyRegistries.Valid;
      hide Sound;
      hide ActivationsSound;
      hide ReplaysTo;
      OwnersSame(changes, names.queues, peers, peers[p := MONITOR]);
      hide MonitorLinks;
      hide Home;
      NotLinked(p, wanted);
      hide Gapped;
      MonitoringSound(Now(), p, wanted);
      LinkWanted(wanted);
      missed := missed + Gapped(wanted, peers, ids);
      rules := rules + wanted;
      peers := peers[p := MONITOR];
      nMonitors := nMonitors + 1;
    }

    lemma NotLinked(p: nat, wanted: Rules)
      requires Sound(Now()) && !Active(peers, p) && forall r :: r in wanted ==> r.owner == p
      ensures forall r :: r in wanted ==> r !in matches.links
    {
      SoundUnreferenced(Now(), p);
    }

    method LinkWanted(wanted: Rules)
      requires matches.Valid()
      requires forall r :: r in wanted ==> r !in matches.links && wanted[r] > 0
      modifies matches
      ensures matches.Valid()
      ensures matches.links == old(matches.links) + MonitorLinks(wanted, peers, ids)
    {
      hide MatchIndex.MatchIndex.Valid;
      hide Home;
      hide MonitorLinks;
      var todo := wanted.Keys;
      ghost var done: Rules := map[];
      MonitorLinksMore(map[], Rule(0, EMPTY), 0, peers, ids);
      while todo != {}
        invariant matches.Valid() && todo <= wanted.Keys && done == wanted - todo
        invariant matches.links == old(matches.links) + MonitorLinks(done, peers, ids)
      {
        var r :| r in todo;
        MonitorLinksMore(done, r, wanted[r], peers, ids);
        LinkTimes(r, wanted[r]);
        todo := todo - {r};
        done := done[r := wanted[r]];
      }
      assert done == wanted;
    }

    method LinkTimes(r: Rule, n: nat)
      requires matches.Valid() && r !in matches.links && n > 0
      modifies matches
      ensures matches.Valid()
      ensures matches.links == match Home(r.keys, peers, ids)
                               case None => old(matches.links)
                               case Some(reg) => old(matches.links)[r := Link(Tree(reg, true), false)]
    {
      hide MatchIndex.MatchIndex.Valid;
      hide Home;
      for i := 0 to n
        invariant matches.Valid()
        invariant matches.links == if i == 0 || Home(r.keys, peers, ids).None? then old(matches.links)
                                   else old(matches.links)[r := Link(Tree(Home(r.keys, peers, ids).value, true), false)]
      {
        LinkMatch(r, true);
      }
    }

    // ---------------------------------------------------------------- broadcasts

    // the loop over the names of the sender, of which only those it is primary owner of count
    method CollectNames(monitor: bool, p: nat, m: MessageMetadata, destinations: seq<nat>) returns (r: seq<nat>)
      requires matches.Valid() && names.Valid() && NoDuplicates(destinations)
      ensures Extends(destinations, r, OfNames(matches.links, monitor, PrimaryNames(names.queues, p), m))
    {
      hide MatchIndex.MatchIndex.Valid;
      hide Names.NameRegistry.Valid;
      hide Extends;
      hide OfNames;
      hide Subscribers;
      var todo := names.Owned(p);
      ghost var done := {};
      r := destinations;
      ExtendsNone(destinations);
      OfNamesMore(matches.links, monitor, {}, "", m);
      while todo != {}
        invariant todo <= names.Owned(p) && done == PrimaryNames(names.queues, p) * (names.Owned(p) - todo)
        invariant Extends(destinations, r, OfNames(matches.links, monitor, done, m))
      {
        var n :| n in todo;
        names.OwnedIffQueued(p, n);
        if Names.Primary(Names.QueueOf(names.queues, n)) == Some(p) {
          ghost var r0 := r;
          Distinct(destinations, r, OfNames(matches.links, monitor, done, m));
          r := matches.GetDestinations(Tree(NameSender(n), monitor), m, r);
          ExtendsChain(destinations, r0, r, OfNames(matches.links, monitor, done, m),
                       Subscribers(matches.links, Tree(NameSender(n), monitor), m));
          OfNamesMore(matches.links, monitor, done, n, m);
          done := done + {n};
        }
        todo := todo - {n};
      }
      forall n | n in PrimaryNames(names.queues, p) ensures n in names.Owned(p) {
        names.OwnedIffQueued(p, n);
        assert Names.QueueOf(names.queues, n)[0].owner == p;
      }
      assert done == PrimaryNames(names.queues, p);
    }

    // bus_get_broadcast_destinations()
    method BroadcastDestinations(registry: Option<RegistryId>, sender: Option<nat>, m: MessageMetadata)
      returns (r: seq<nat>)
      requires matches.Valid() && names.Valid()
      ensures Extends([], r,
                Subscribers(matches.links, Tree(Wildcard, false), m)
                + (if registry.Some? then Subscribers(matches.links, Tree(registry.value, false), m) else {})
                + if sender.Some? then OfNames(matches.links, false, PrimaryNames(names.queues, sender.value), m)
                  else Subscribers(matches.links, Tree(Driver, false), m))
    {
      hide *;
      r := matches.GetDestinations(Tree(Wildcard, false), m, []);
      ghost var found := Subscribers(matches.links, Tree(Wildcard, false), m);
      Distinct([], r, found);
      ghost var r0 := r;
      if registry.Some? {
        r := matches.GetDestinations(Tree(registry.value, false), m, r);
        ExtendsChain([], r0, r, found, Subscribers(matches.links, Tree(registry.value, false), m));
        found := found + Subscribers(matches.links, Tree(registry.value, false), m);
      }
      assert found == Subscribers(matches.links, Tree(Wildcard, false), m)
        + if registry.Some? then Subscribers(matches.links, Tree(registry.value, false), m) else {};
      Distinct([], r, found);
      r0 := r;
      if sender.Some? {
        r := CollectNames(false, sender.value, m, r);
        ExtendsChain([], r0, r, found, OfNames(matches.links, false, PrimaryNames(names.queues, sender.value), m));
      } else {
        r := matches.GetDestinations(Tree(Driver, false), m, r);
        ExtendsChain([], r0, r, found, Subscribers(matches.links, Tree(Driver, false), m));
      }
    }

    // bus_get_monitor_destinations()
    method MonitorDestinations(sender: Option<nat>, m: MessageMetadata) returns (r: seq<nat>)
      requires matches.Valid() && names.Valid() && LinksByRole(matches.links, peers) && nMonitors == |Monitors(peers)|
      ensures Extends([], r, Subscribers(matches.links, Tree(Wildcard, true), m) + MonitorsOfSender(sender, m))
    {
      hide MatchIndex.MatchIndex.Valid;
      hide Names.NameRegistry.Valid;
      if nMonitors == 0 {
        NoMonitorsNoLinks(matches.links, peers);
        assert MonitorsOfSender(sender, m) == {} && Subscribers(matches.links, Tree(Wildcard, true), m) == {};
        return [];
      }
      hide *;
      r := matches.GetDestinations(Tree(Wildcard, true), m, []);
      ghost var found := Subscribers(matches.links, Tree(Wildcard, true), m);
      Distinct([], r, found);
      ghost var r0 := r;
      r := CollectMonitors(sender, m, r);
      ExtendsChain([], r0, r, found, MonitorsOfSender(sender, m));
    }

    ghost function MonitorsOfSender(sender: Option<nat>, m: MessageMetadata): set<nat>
      reads matches`links, names`queues
    {
      match sender
      case Some(p) => OfNames(matches.links, true, PrimaryNames(names.queues, p), m)
        + Subscribers(matches.links, Tree(PeerSender(p), true), m)
      case None => Subscribers(matches.links, Tree(Driver, true), m)
    }

    method CollectMonitors(sender: Option<nat>, m: MessageMetadata, destinations: seq<nat>) returns (r: seq<nat>)
      requires matches.Valid() && names.Valid() && NoDuplicates(destinations)
      ensures Extends(destinations, r, MonitorsOfSender(sender, m))
    {
      hide MatchIndex.MatchIndex.Valid;
      hide Names.NameRegistry.Valid;
      hide Extends;
      hide OfNames;
      hide Subscribers;
      if sender.Some? {
        r := CollectNames(true, sender.value, m, destinations);
        ghost var r0, found := r, OfNames(matches.links, true, PrimaryNames(names.queues, sender.value), m);
        Distinct(destinations, r, found);
        r := matches.GetDestinations(Tree(PeerSender(sender.value), true), m, r);
        ExtendsChain(destinations, r0, r, found, Subscribers(matches.links, Tree(PeerSender(sender.value), true), m));
      } else {
        r := matches.GetDestinations(Tree(Driver, true), m, destinations);
      }
    }

    // The broadcast half of driver_dispatch_forward(): each subscriber that the signal concerns,
    // once. These are the peers that asked for it if, and only if, everyone with a rule in the gap
    // has another one that is linked.
    method Broadcast(p: nat, m: MessageMetadata) returns (r: seq<nat>)
      requires Valid() && Registered(peers, p) && m.senderId == Some(p)
      ensures NoDuplicates(r) && Elements(r) == Concerned(matches.links, false, p, names.queues, m)
      ensures var wanted := Wanted(rules, peers, false, p, names.queues, m);
        && (Elements(r) == OwnersOfRules(wanted) <==> Covered(wanted, matches.links.Keys))
        && ((forall x :: x in missed && x !in matches.links ==> Subject(x.keys) != Some(p)) ==>
           Elements(r) == OwnersOfRules(wanted))
    {
      ValidParts();
      AskedOfPeer(false, p, m);
      hide *;
      r := BroadcastDestinations(Some(PeerSender(p)), Some(p), m);
    }

    // what the lookups for a signal of a peer find, and what was asked for
    lemma AskedOfPeer(monitor: bool, p: nat, m: MessageMetadata)
      requires Valid() && m.senderId == Some(p)
      ensures Concerned(matches.links, monitor, p, names.queues, m)
        == Subscribers(matches.links, Tree(Wildcard, monitor), m)
         + Subscribers(matches.links, Tree(PeerSender(p), monitor), m)
         + OfNames(matches.links, monitor, PrimaryNames(names.queues, p), m)
      ensures Registered(peers, p) ==>
        var wanted, found := Wanted(rules, peers, monitor, p, names.queues, m),
          Concerned(matches.links, monitor, p, names.queues, m);
        && (found == OwnersOfRules(wanted) <==> Covered(wanted, matches.links.Keys))
        && ((forall x :: x in missed && x !in matches.links ==> Subject(x.keys) != Some(p)) ==>
           found == OwnersOfRules(wanted))
    {
      LinksFollowRoles(Now());
      assert Placed(rules, matches.links, peers, ids, missed) && NamesOwnable(names.queues);
      hide *;
      LookupsSuffice(rules, matches.links, peers, ids, missed, names.queues, monitor, p, m);
      if Registered(peers, p) {
        DeliveredExactlyIff(rules, matches.links, peers, ids, missed, names.queues, monitor, p, m);
        NothingLacks(Wanted(rules, peers, monitor, p, names.queues, m), matches.links.Keys);
      }
    }

    // What signals about the owners of names need. It holds wherever they are sent, also in the middle
    // of a disconnect, and before what waits for a name is handed to its new owner.
    ghost predicate Announceable()
      reads this`rules, this`peers, this`ids, this`missed, this`nMonitors, names, matches
    {
      names.Valid() && NamesOwnable(names.queues) && RulesAnnounceable()
    }

    ghost predicate RulesAnnounceable()
      reads this`rules, this`peers, this`ids, this`missed, this`nMonitors, matches
    {
      && matches.Valid() && nMonitors == |Monitors(peers)|
      && WatchersPlaced(rules, matches.links, peers, ids, missed) && LinksByRole(matches.links, peers)
    }

    lemma SoundAnnounceable()
      requires matches.Valid() && names.Valid() && Sound(Now())
      ensures Announceable()
    {
      LinksFollowRoles(Now());
      PlacedWatchers(rules, matches.links, peers, ids, missed);
    }

    // Whatever happens to one queue, signals can be sent.
    lemma AnnounceableWith(n: string, q: Names.Queue)
      requires Announceable() && (q != [] ==> n != "" && n[0] != ':' && n != DRIVER_NAME)
      ensures NamesOwnable(names.queues[n := q])
    {
      OwnableWith(names.queues, n, q);
    }

    lemma StillAnnounceable(p: nat, n: string)
      requires Announceable() && n in names.Owned(p)
      ensures n != DRIVER_NAME && (n != "" ==> n[0] != ':')
      ensures NamesOwnable(names.queues[n := Names.Others(Names.QueueOf(names.queues, n), p)])
    {
      names.OwnedIffQueued(p, n);
      QueuedOwnable(names.queues, n, p);
      AnnounceableParts();
      hide Announceable;
      hide NamesOwnable;
      OwnableWith(names.queues, n, Names.Others(Names.QueueOf(names.queues, n), p));
    }

    // ... nor does unlinking what the peer asked for, and what others asked of it, stand in the way
    lemma DetachedAnnounceable(p: nat)
      requires Announceable()
      ensures var links := Outside(LinksOfOthers(matches.links, p), PeerSender(p));
        WatchersPlaced(RulesOfOthers(rules, p), links, peers, ids, missed)
      ensures LinksByRole(Outside(LinksOfOthers(matches.links, p), PeerSender(p)), peers)
    {
      WatchersFlushed(rules, matches.links, peers, ids, missed, p);
    }

    // driver_name_owner_changed(), up to the messages to the two owners
    method AnnounceChange(c: Names.NameChange) returns (subscribers: seq<nat>, monitors: seq<nat>)
      requires Announceable() && c.name != DRIVER_NAME
      modifies this`changes
      ensures changes == old(changes) + [c]
      ensures NobodyMissed(c.name) ==>
        Elements(subscribers) == OwnersOfRules(WantedOfDriver(rules, peers, false, SignalOf(c)))
      ensures Elements(monitors) <= OwnersOfRules(WantedOfDriver(rules, peers, true, SignalOf(c)))
    {
      hide *;
      subscribers := AnnounceOwner(c.name, SignalOf(c));
      monitors := ShowOwnerToMonitors(c.name, SignalOf(c));
      changes := changes + [c];
    }

    // the same for the unique name of a peer that has just come, or is about to go
    method AnnouncePeer(p: nat, comes: bool) returns (subscribers: seq<nat>, monitors: seq<nat>)
      requires Announceable()
      modifies this`changes
      ensures var n := Address.IdToString(p);
        var c := if comes then Names.NameChange(n, None, Some(p)) else Names.NameChange(n, Some(p), None);
        && changes == old(changes) + [c]
        && (NobodyMissed(n) ==>
              Elements(subscribers) == OwnersOfRules(WantedOfDriver(rules, peers, false, SignalOf(c))))
        && Elements(monitors) <= OwnersOfRules(WantedOfDriver(rules, peers, true, SignalOf(c)))
    {
      DriverHasNoId(p);
      hide *;
      var n := Address.IdToString(p);
      subscribers, monitors := AnnounceChange(
        Names.NameChange(n, if comes then None else Some(p), if comes then Some(p) else None));
    }

    // The signal names the old and the new owner by their unique names, or says "" for nobody.
    function SignalOf(c: Names.NameChange): (m: MessageMetadata)
      ensures IsOwnerChanged(m, c.name)
      ensures m.args[0] == Arg('s', Some(c.name))
      ensures m.args[1] == Arg('s', Some(if c.oldOwner.Some? then Address.IdToString(c.oldOwner.value) else ""))
      ensures m.args[2] == Arg('s', Some(if c.newOwner.Some? then Address.IdToString(c.newOwner.value) else ""))
      ensures m.msgType == 4 && m.senderId.None? && m.nArgs == 3
      ensures m.path == Some("/org/freedesktop/DBus") && m.iface == Some("org.freedesktop.DBus")
      ensures m.member == Some("NameOwnerChanged")
    {
      OwnerChanged(c.name, OwnerText(c.oldOwner), OwnerText(c.newOwner))
    }

    function OwnerText(owner: Option<nat>): string {
      if owner.None? then "" else Address.IdToString(owner.value)
    }

    // what the lookups for a signal of the driver find, and what was asked for
    lemma AskedOfDriver(name: string, m: MessageMetadata)
      requires Announceable() && IsOwnerChanged(m, name) && name != DRIVER_NAME
      ensures ConcernedByDriver(matches.links, false, m)
        == Subscribers(matches.links, Tree(Wildcard, false), m)
         + Subscribers(matches.links, Tree(OwnerRegistry(name), false), m)
         + Subscribers(matches.links, Tree(Driver, false), m)
      ensures var wanted, found := WantedOfDriver(rules, peers, false, m), ConcernedByDriver(matches.links, false, m);
        && (found == OwnersOfRules(wanted) <==> Covered(wanted, matches.links.Keys))
        && (NobodyMissed(name) ==> found == OwnersOfRules(wanted))
      ensures var wanted := WantedOfDriver(rules, peers, true, m);
        var seen := Subscribers(matches.links, Tree(Wildcard, true), m) +
          Subscribers(matches.links, Tree(Driver, true), m);
        seen <= OwnersOfRules(wanted) &&
          (seen == OwnersOfRules(wanted) <==> Covered(wanted, Scanned(matches.links, name)))
    {
      assert WatchersPlaced(rules, matches.links, peers, ids, missed) && LinksByRole(matches.links, peers);
      var wanted := WantedOfDriver(rules, peers, false, m);
      AnnouncedExactlyIff(rules, matches.links, peers, ids, missed, name, m);
      assert NobodyMissed(name) ==> wanted <= matches.links.Keys;
      hide *;
      OwnerLookupsSuffice(rules, matches.links, peers, ids, missed, name, false, m);
      MonitorsSeeDriverIff(rules, matches.links, peers, ids, missed, name, m);
      NothingLacks(wanted, matches.links.Keys);
    }

    // no rule that watches this name fell into the gap
    ghost predicate NobodyMissed(name: string)
      reads this`peers, this`missed, matches`links
    {
      Address.FromString(name).Id? ==>
        && MayRegister(peers, Address.FromString(name).id)
        && forall x :: x in missed && x !in matches.links ==> Target(x.keys) != Some(name)
    }

    // the monitors that see a message of peer p; the ones that asked for it in the same sense
    method ShowToMonitors(p: nat, m: MessageMetadata) returns (r: seq<nat>)
      requires Valid() && m.senderId == Some(p)
      ensures NoDuplicates(r) && Elements(r) == Concerned(matches.links, true, p, names.queues, m)
      ensures var wanted := Wanted(rules, peers, true, p, names.queues, m);
        Registered(peers, p) ==>
          && (Elements(r) == OwnersOfRules(wanted) <==> Covered(wanted, matches.links.Keys))
          && ((forall x :: x in missed && x !in matches.links ==> Subject(x.keys) != Some(p)) ==>
             Elements(r) == OwnersOfRules(wanted))
    {
      hide MatchIndex.MatchIndex.Valid;
      hide Names.NameRegistry.Valid;
      hide Replies.ReplyRegistries.Valid;
      hide Placed;
      hide NamesOwnable;
      AskedOfPeer(true, p, m);
      SoundAnnounceable();
      r := MonitorDestinations(Some(p), m);
    }

    // driver_name_owner_changed(): the subscribers of the signal about one name. These are the
    // peers that asked for it if, and only if, everyone with an unlinked rule has another one
    // that is linked; in particular if no rule watching this name fell into the gap.
    method AnnounceOwner(name: string, m: MessageMetadata) returns (r: seq<nat>)
      requires Announceable() && IsOwnerChanged(m, name) && name != DRIVER_NAME
      ensures NoDuplicates(r) && Elements(r) == ConcernedByDriver(matches.links, false, m)
      ensures var wanted := WantedOfDriver(rules, peers, false, m);
        && (Elements(r) == OwnersOfRules(wanted) <==> Covered(wanted, matches.links.Keys))
        && (NobodyMissed(name) ==> Elements(r) == OwnersOfRules(wanted))
    {
      AskedOfDriver(name, m);
      r := BroadcastDestinations(Some(OwnerRegistry(name)), None, m);
    }

    // The monitors that see it: all that asked if, and only if, everyone whose rule stands in the
    // registry of the name, or nowhere, has another one elsewhere.
    method ShowOwnerToMonitors(name: string, m: MessageMetadata) returns (r: seq<nat>)
      requires Announceable() && IsOwnerChanged(m, name) && name != DRIVER_NAME
      ensures var wanted := WantedOfDriver(rules, peers, true, m);
        && NoDuplicates(r) && Elements(r) <= OwnersOfRules(wanted)
        && (Elements(r) == OwnersOfRules(wanted) <==> Covered(wanted, Scanned(matches.links, name)))
    {
      AskedOfDriver(name, m);
      r := MonitorDestinations(None, m);
    }

    // ---------------------------------------------------------------- calls and replies

    // peer_queue_unicast(): a call that cannot be queued leaves no slot behind
    method QueueUnicast(caller: Option<nat>, senderId: nat, callee: nat, serial: nat) returns (r: SendResult)
      requires replies.Valid()
      modifies replies
      ensures replies.Valid()
      ensures r in {Sent, ExpectedReplyExists, QuotaExceeded, NotDelivered}
      ensures replies.slots == old(replies.slots) +
        if r == Sent && caller.Some? && serial != 0 then {Replies.Slot(callee, caller.value, senderId, serial)} else {}
      ensures r == ExpectedReplyExists <==>
        caller.Some? && serial != 0 && Replies.Expects(old(replies.slots), callee, senderId, serial)
      ensures var log, s := old(replies.log),
                            Replies.Slot(callee, if caller.Some? then caller.value else 0, senderId, serial);
        replies.log == if r == Sent && caller.Some? && serial != 0 then log + [Replies.Opened(s)]
                       else if r == NotDelivered && caller.Some? && serial != 0
                       then log + [Replies.Opened(s)] + [Replies.Settled(s, Replies.NotSent)]
                       else log
    {
      hide Replies.ReplyRegistries.Valid;
      var expected := caller.Some? && serial != 0;
      var slot := Replies.Slot(callee, if caller.Some? then caller.value else 0, senderId, serial);
      if expected {
        var quota: bool := *;
        var created := replies.New(slot, quota);
        if created == Replies.Exists {
          return ExpectedReplyExists;
        } else if created == Replies.Quota {
          return QuotaExceeded;
        }
      }
      var queued: bool := *;
      if !queued {
        if expected {
          replies.Free(slot, Replies.NotSent);
        }
        return NotDelivered;
      }
      return Sent;
    }

    // peer_queue_reply(): false for a reply that nobody expects. One that is expected settles its
    // slot, whether or not it can be queued on the caller.
    method QueueReply(p: nat, destination: string, serial: nat) returns (expected: bool, queued: bool)
      requires Valid()
      modifies replies
      ensures Valid()
      ensures var to := Address.FromString(destination);
        && (expected <==> to.Id? && Replies.Expects(old(replies.slots), p, to.id, serial))
        && replies.slots ==
           (if expected then Replies.NotExpecting(old(replies.slots), p, to.id, serial) else old(replies.slots))
        && (if expected
            then replies.log == old(replies.log) +
              [Replies.Settled(Replies.Slot(p, to.id, to.id, serial),
                               if queued then Replies.Forwarded else Replies.Dropped)]
              && Registered(peers, to.id)
            else replies.log == old(replies.log) && !queued)
    {
      hide MatchIndex.MatchIndex.Valid;
      hide Names.NameRegistry.Valid;
      hide Replies.ReplyRegistries.Valid;
      hide ActivationsSound;
      hide Replays;
      var address := Address.FromString(destination);
      if !address.Id? {
        return false, false;
      }
      var slot := replies.Find(p, address.id, serial);
      if slot.None? {
        return false, false;
      }
      SettledSound(Now(), replies.slots - {slot.value});
      hide Sound;
      queued := *;
      replies.Free(slot.value, if queued then Replies.Forwarded else Replies.Dropped);
      return true, queued;
    }

    // bus_find_peer_by_name()
    function FindPeer(destination: string): (r: Option<nat>)
      reads this`peers, names`queues
    {
      match Address.FromString(destination)
      case Id(id) => if Registered(peers, id) then Some(id) else None
      case Name(n) => Names.Primary(Names.QueueOf(names.queues, n))
      case Other => None
    }

    // A unique name reaches its peer if that is registered, a well-known name its primary owner, and
    // nothing else reaches anybody.
    lemma FindPeerIs(destination: string)
      ensures forall q: nat :: q < Address.ID_INVALID && destination == Address.IdToString(q) ==>
        FindPeer(destination) == if q in peers && peers[q].registered then Some(q) else None
      ensures destination != "" && destination[0] != ':' ==>
        var queue := Names.QueueOf(names.queues, destination);
        FindPeer(destination) == if queue != [] then Some(queue[0].owner) else None
      ensures destination == "" || destination[0] == ':' ==>
        forall q: nat :: FindPeer(destination) == Some(q) ==>
          q in peers && peers[q].registered && Address.FromString(destination) == Address.Id(q)
    {
      forall q: nat | q < Address.ID_INVALID && destination == Address.IdToString(q)
        ensures Address.FromString(destination) == Address.Id(q) {
        Address.IdRoundTrip(q);
      }
    }

    // driver_forward_unicast(): to the addressed peer, or into the queue of an activatable name
    method Forward(p: nat, destination: string, serial: nat, noAutoStart: bool, token: nat) returns (r: SendResult)
      requires Valid() && Registered(peers, p)
      modifies this`activationIds, replies, activations.Values
      ensures Valid()
      ensures FindPeer(destination).Some? ==>
        && replies.slots == old(replies.slots) +
             (if r == Sent && serial != 0 then {Replies.Slot(FindPeer(destination).value, p, p, serial)} else {})
        && (r == ExpectedReplyExists <==>
           serial != 0 && Replies.Expects(old(replies.slots), FindPeer(destination).value, p, serial))
        && r in {Sent, ExpectedReplyExists, QuotaExceeded, NotDelivered}
      ensures forall q: nat ::
        || (q in peers && peers[q].registered && q < Address.ID_INVALID && destination == Address.IdToString(q))
        || (destination != "" && destination[0] != ':' && Primary(destination) == Some(q)) ==>
          && r in {Sent, ExpectedReplyExists, QuotaExceeded, NotDelivered}
          && replies.slots == old(replies.slots) +
               if r == Sent && serial != 0 then {Replies.Slot(q, p, p, serial)} else {}
      ensures FindPeer(destination).None? ==>
        && replies.slots == old(replies.slots)
        && (r == DestinationNotFound <==> noAutoStart)
        && (r == NotActivatable <==> !noAutoStart && !(ActivatableName(destination) && destination in activations))
        && r in {DestinationNotFound, NotActivatable, Waiting, QuotaExceeded, NotDelivered}
      ensures destination in activations ==>
        activations[destination].messages == old(activations[destination].messages)
          + if r == Waiting then [Activation.Message(p, serial, token)] else []
      ensures r == Waiting ==> destination in activations && activations[destination].pending != 0
      ensures forall x :: x in activations && (x != destination || FindPeer(destination).Some?) ==>
        unchanged(activations[x])
    {
      hide *;
      FindPeerIs(destination);
      PrimaryIs(destination);
      var receiver := FindPeer(destination);
      if receiver.Some? {
        FoundIsRegistered(destination);
        r := Call(p, receiver.value, serial);
      } else {
        r := QueueForActivation(p, destination, serial, noAutoStart, token);
      }
    }

    lemma PrimaryIs(n: string)
      ensures var q := Names.QueueOf(names.queues, n); Primary(n) == if q != [] then Some(q[0].owner) else None
    {
    }

    // the part of it for a destination that is not there
    method QueueForActivation(p: nat, destination: string, serial: nat, noAutoStart: bool, token: nat)
      returns (r: SendResult)
      requires Valid() && FindPeer(destination).None?
      modifies this`activationIds, activations.Values
      ensures Valid()
      ensures r == DestinationNotFound <==> noAutoStart
      ensures r == NotActivatable <==> !noAutoStart && !(ActivatableName(destination) && destination in activations)
      ensures r in {DestinationNotFound, NotActivatable, Waiting, QuotaExceeded, NotDelivered}
      ensures destination in activations ==>
        activations[destination].messages == old(activations[destination].messages)
          + if r == Waiting then [Activation.Message(p, serial, token)] else []
      ensures r == Waiting ==> destination in activations && activations[destination].pending != 0
      ensures forall x :: x in activations && x != destination ==> unchanged(activations[x])
    {
      hide MatchIndex.MatchIndex.Valid;
      hide Names.NameRegistry.Valid;
      hide Replies.ReplyRegistries.Valid;
      hide Sound;
      hide ReplaysTo;
      if noAutoStart {
        return DestinationNotFound;
      }
      if !ActivatableName(destination) || destination !in activations {
        return NotActivatable;
      }
      r := Park(destination, Activation.Message(p, serial, token));
    }

    method Call(p: nat, callee: nat, serial: nat) returns (r: SendResult)
      requires Valid() && Registered(peers, p) && Registered(peers, callee)
      modifies replies
      ensures Valid()
      ensures replies.slots == old(replies.slots) +
        if r == Sent && serial != 0 then {Replies.Slot(callee, p, p, serial)} else {}
      ensures r == ExpectedReplyExists <==> serial != 0 && Replies.Expects(old(replies.slots), callee, p, serial)
      ensures r in {Sent, ExpectedReplyExists, QuotaExceeded, NotDelivered}
    {
      hide MatchIndex.MatchIndex.Valid;
      hide Names.NameRegistry.Valid;
      hide Replies.ReplyRegistries.Valid;
      hide Sound;
      hide ActivationsSound;
      hide Replays;
      ghost var v := Now();
      OpenedSound(v, Replies.Slot(callee, p, p, serial));
      r := QueueUnicast(Some(p), p, callee, serial);
      assert Now() == v || Now() == v.(slots := v.slots + {Replies.Slot(callee, p, p, serial)});
    }

    predicate ActivatableName(destination: string) {
      Address.FromString(destination).Name?
    }

    // activation_queue_message() on a name without an owner
    method Park(n: string, m: Activation.Message) returns (r: SendResult)
      requires ActivationsSound() && n in activations
      requires Names.QueueOf(names.queues, n) == []
      modifies this`activationIds, activations[n]
      ensures ActivationsSound()
      ensures r in {Waiting, QuotaExceeded, NotDelivered}
      ensures activations[n].messages == old(activations[n].messages) + if r == Waiting then [m] else []
      ensures r == Waiting ==> activations[n].pending != 0
    {
      var ok: bool, quota: bool := *, *;
      var act := activations[n];
      assert ActivationSound(n);
      var ids', queued := act.QueueMessage(m, activationIds, ok, quota);
      activationIds := ids';
      forall x | x in activations ensures ActivationSound(x) {
        assert old(ActivationSound(x));
      }
      return match queued case Done => Waiting case Quota => QuotaExceeded case Failure => NotDelivered;
    }

    lemma FoundIsRegistered(destination: string)
      requires Valid() && FindPeer(destination).Some?
      ensures Registered(peers, FindPeer(destination).value)
    {
      match Address.FromString(destination)
      case Name(n) =>
        assert Names.QueueOf(names.queues, n)[0].owner == FindPeer(destination).value;
        assert Names.Queued(Names.QueueOf(names.queues, n), FindPeer(destination).value);
      case _ =>
    }

    // driver_method_start_service_by_name(), up to its reply
    method StartService(p: nat, n: string, serial: nat) returns (r: SendResult)
      requires Valid() && Registered(peers, p)
      modifies this`activationIds, activations.Values
      ensures Valid()
      ensures r == NotActivatable <==> n !in activations
      ensures r == AlreadyRunning <==> n in activations && Names.Primary(Names.QueueOf(names.queues, n)).Some?
      ensures n in activations ==>
        activations[n].requests == old(activations[n].requests)
          + if r == Waiting && serial != 0 then [Activation.Request(p, serial)] else []
      ensures r == Waiting ==> activations[n].pending != 0
      ensures forall x :: x in activations && (x != n || r == AlreadyRunning) ==> unchanged(activations[x])
    {
      hide MatchIndex.MatchIndex.Valid;
      hide Names.NameRegistry.Valid;
      hide Replies.ReplyRegistries.Valid;
      hide Sound;
      hide Replays;
      if n !in activations {
        return NotActivatable;
      }
      if Names.Primary(Names.QueueOf(names.queues, n)).Some? {
        return AlreadyRunning;
      }
      var ok: bool, quota: bool := *, *;
      assert ActivationSound(n);
      var ids', queued := activations[n].QueueRequest(Activation.Request(p, serial), activationIds, ok, quota);
      activationIds := ids';
      forall x | x in activations ensures ActivationSound(x) {
        assert old(ActivationSound(x));
      }
      return match queued case Done => Waiting case Quota => QuotaExceeded case Failure => NotDelivered;
    }

    // ---------------------------------------------------------------- activation

    // everything but the queues of n is as it should be
    ghost predicate SoundBeside(n: string)
      requires n in activations
      reads this`activations, this`activationIds, names`queues, activations.Values
    {
      && (forall x, y :: x in activations && y in activations && x != y ==> activations[x] != activations[y])
      && (forall x :: x in activations && x != n ==> ActivationSound(x))
      && activations[n].InOrder()
      && activations[n].pending <= activationIds
    }

    // Each message was resolved, in sequence: it was forwarded, or refused by the new owner.
    ghost predicate HandedOn(before: seq<(Activation.Message, Activation.Resolution)>,
                             after: seq<(Activation.Message, Activation.Resolution)>,
                             messages: seq<Activation.Message>)
    {
      && before <= after && |after| == |before| + |messages|
      && forall i :: 0 <= i < |messages| ==> HandedOver(messages[i], after[|before| + i])
    }

    ghost predicate HandedOver(m: Activation.Message, e: (Activation.Message, Activation.Resolution)) {
      e.0 == m && e.1 in {Activation.Served, Activation.Refused}
    }

    // Everything that waited for n has been handed to its new owner: requests are answered, each message
    // is forwarded or refused, and those that were forwarded and expect a reply have their slots.
    twostate predicate ServedTo(n: string, receiver: nat)
      requires n in old(activations) && n in activations
      reads this, replies, activations.Values, activations[n]
    {
      var h, h' := old(activations[n].history), activations[n].history;
      && activations[n].Quiet() && activations[n].pending == 0
      && h'.requests == h.requests && h'.messages == h.messages
      && h'.resolvedRequests == h.resolvedRequests + Activation.All(old(activations[n].requests), Activation.Served)
      && HandedOn(h.resolvedMessages, h'.resolvedMessages, old(activations[n].messages))
      && replies.slots == old(replies.slots) + ServedSlots(peers, h.resolvedMessages, h'.resolvedMessages, receiver)
    }

    twostate lemma ServedToMeans(n: string, receiver: nat)
      requires n in old(activations) && n in activations && ServedTo(n, receiver)
      ensures activations[n].requests == [] && activations[n].messages == [] && activations[n].pending == 0
      ensures var before := old(activations[n].history.resolvedMessages);
        var after := activations[n].history.resolvedMessages;
        var messages := old(activations[n].messages);
        && |after| == |before| + |messages| && after[..|before|] == before
        && (forall i :: 0 <= i < |messages| ==>
              && after[|before| + i].0 == messages[i]
              && (after[|before| + i].1 == Activation.Served || after[|before| + i].1 == Activation.Refused))
        && (forall s :: s in replies.slots <==>
              || s in old(replies.slots)
              || exists i :: |before| <= i < |after| && after[i].1 == Activation.Served && after[i].0.serial != 0
                   && after[i].0.sender in peers && peers[after[i].0.sender].registered
                   && s == Replies.Slot(receiver, after[i].0.sender, after[i].0.sender, after[i].0.serial))
    {
      ghost var before, after := old(activations[n].history.resolvedMessages), activations[n].history.resolvedMessages;
      forall i | 0 <= i < |old(activations[n].messages)|
        ensures HandedOver(old(activations[n].messages)[i], after[|before| + i]) {
      }
    }

    // driver_name_activated(): requests are answered and messages delivered, in sequence
    method NameActivated(n: string, receiver: nat)
      requires PartsValid() && Sound(Now()) && Registered(peers, receiver)
      requires n in activations ==> SoundBeside(n)
      requires n !in activations ==> ActivationsSound()
      modifies replies, activations.Values
      ensures PartsValid() && Sound(Now()) && ActivationsSound()
      ensures if n in activations then ServedTo(n, receiver) else replies.slots == old(replies.slots)
      ensures forall x :: x in activations && x != n ==> unchanged(activations[x])
    {
      hide MatchIndex.MatchIndex.Valid;
      hide Names.NameRegistry.Valid;
      hide Replies.ReplyRegistries.Valid;
      hide Sound;
      if n !in activations {
        return;
      }
      var act := activations[n];
      act.pending := 0;
      Answer(act, Activation.Served);
      Deliver(act, receiver);
      forall x | x in activations ensures ActivationSound(x) {
        assert x != n ==> old(ActivationSound(x));
      }
    }

    // the loop over the waiting requests; a reply goes to senders that are still there
    method Answer(act: Activation.Activation, ghost how: Activation.Resolution)
      requires act.InOrder()
      modifies act
      ensures act.InOrder() && act.requests == [] && act.pending == old(act.pending)
      ensures act.messages == old(act.messages) && act.history.messages == old(act.history.messages)
      ensures act.history.requests == old(act.history.requests)
      ensures act.history.resolvedMessages == old(act.history.resolvedMessages)
      ensures act.history.resolvedRequests == old(act.history.resolvedRequests) + Activation.All(old(act.requests), how)
    {
      Activation.AllNone(act.history.resolvedRequests, act.requests, how);
      while act.requests != []
        invariant act.InOrder() && act.pending == old(act.pending)
        invariant act.messages == old(act.messages) && act.history.messages == old(act.history.messages)
        invariant act.history.requests == old(act.history.requests)
        invariant act.history.resolvedMessages == old(act.history.resolvedMessages)
        invariant act.history.resolvedRequests + Activation.All(act.requests, how)
          == old(act.history.resolvedRequests) + Activation.All(old(act.requests), how)
        decreases |act.requests|
      {
        Activation.AllStep(act.history.resolvedRequests, act.requests, how);
        var q := act.PopRequest(how);
      }
    }

    // the loop over the waiting messages: each is forwarded to the new owner
    method Deliver(act: Activation.Activation, receiver: nat)
      requires act.InOrder() && replies.Valid() && Sound(Now()) && Registered(peers, receiver)
      modifies act, replies
      ensures act.InOrder() && act.messages == [] && act.pending == old(act.pending)
      ensures act.requests == old(act.requests) && act.history.requests == old(act.history.requests)
      ensures act.history.messages == old(act.history.messages)
      ensures act.history.resolvedRequests == old(act.history.resolvedRequests)
      ensures replies.Valid() && Sound(Now())
      ensures HandedOn(old(act.history.resolvedMessages), act.history.resolvedMessages, old(act.messages))
      ensures replies.slots == old(replies.slots) +
        ServedSlots(peers, old(act.history.resolvedMessages), act.history.resolvedMessages, receiver)
    {
      hide Replies.ReplyRegistries.Valid;
      hide Sound;
      ghost var all, before := act.messages, act.history.resolvedMessages;
      NoneServed(peers, before, receiver);
      hide ServedSlots;
      ghost var k := 0;
      while act.messages != []
        invariant act.InOrder() && act.pending == old(act.pending)
        invariant act.requests == old(act.requests) && act.history.requests == old(act.history.requests)
        invariant act.history.messages == old(act.history.messages)
        invariant act.history.resolvedRequests == old(act.history.resolvedRequests)
        invariant replies.Valid() && Sound(Now())
        invariant k <= |all| && act.messages == all[k..]
        invariant HandedOn(before, act.history.resolvedMessages, all[..k])
        invariant replies.slots == old(replies.slots) +
          ServedSlots(peers, before, act.history.resolvedMessages, receiver)
        decreases |act.messages|
      {
        var m := act.messages[0];
        var r := DeliverOne(m, receiver);
        var resolution := if r == Sent then Activation.Served else Activation.Refused;
        assert HandedOver(m, (m, resolution));
        OneServed(peers, before, act.history.resolvedMessages, m, resolution, receiver);
        var popped := act.PopMessage(resolution);
        k := k + 1;
      }
    }

    method DeliverOne(m: Activation.Message, receiver: nat) returns (r: SendResult)
      requires replies.Valid() && Sound(Now()) && Registered(peers, receiver)
      modifies replies
      ensures replies.Valid() && Sound(Now())
      ensures replies.slots == old(replies.slots) +
        if r == Sent && Registered(peers, m.sender) && m.serial != 0
        then {Replies.Slot(receiver, m.sender, m.sender, m.serial)} else {}
    {
      hide Replies.ReplyRegistries.Valid;
      hide Sound;
      var caller := if Registered(peers, m.sender) then Some(m.sender) else None;
      if caller.Some? {
        OpenedSound(Now(), Replies.Slot(receiver, m.sender, m.sender, m.serial));
      }
      ghost var v := Now();
      r := QueueUnicast(caller, m.sender, receiver, m.serial);
      assert Now() == v || Now() == v.(slots := v.slots + {Replies.Slot(receiver, m.sender, m.sender, m.serial)});
    }

    // driver_name_activation_failed(): an outdated serial changes nothing
    method ActivationFailed(n: string, serial: nat)
      requires Valid() && n in activations
      modifies activations[n]
      ensures Valid()
      ensures old(activations[n].pending) == 0 || old(activations[n].pending) != serial ==> unchanged(activations[n])
      ensures old(activations[n].pending) == serial && serial != 0 ==>
        && activations[n].pending == 0 && activations[n].Quiet()
        && activations[n].history.resolvedRequests == old(activations[n].history.resolvedRequests)
             + Activation.All(old(activations[n].requests), Activation.Failed)
        && activations[n].history.resolvedMessages == old(activations[n].history.resolvedMessages)
             + Activation.All(old(activations[n].messages), Activation.Failed)
    {
      hide MatchIndex.MatchIndex.Valid;
      hide Names.NameRegistry.Valid;
      hide Replies.ReplyRegistries.Valid;
      hide Sound;
      hide Replays;
      var act := activations[n];
      assert ActivationSound(n);
      if act.Stale(serial, act.pending) {
        return;
      }
      act.pending := 0;
      Answer(act, Activation.Failed);
      Reject(act);
      forall x | x in activations ensures ActivationSound(x) {
        assert old(ActivationSound(x));
      }
    }

    // the loop over the waiting messages: their senders get an error
    method Reject(act: Activation.Activation)
      requires act.InOrder() && act.requests == []
      modifies act
      ensures act.InOrder() && act.messages == [] && act.requests == [] && act.pending == old(act.pending)
      ensures act.history.resolvedRequests == old(act.history.resolvedRequests)
      ensures act.history.resolvedMessages
        == old(act.history.resolvedMessages) + Activation.All(old(act.messages), Activation.Failed)
    {
      Activation.AllNone(act.history.resolvedMessages, act.messages, Activation.Failed);
      while act.messages != []
        invariant act.InOrder() && act.requests == [] && act.pending == old(act.pending)
        invariant act.history.resolvedRequests == old(act.history.resolvedRequests)
        invariant act.history.resolvedMessages + Activation.All(act.messages, Activation.Failed)
          == old(act.history.resolvedMessages) + Activation.All(old(act.messages), Activation.Failed)
        decreases |act.messages|
      {
        Activation.AllStep(act.history.resolvedMessages, act.messages, Activation.Failed);
        var m := act.PopMessage(Activation.Failed);
      }
    }

    // activation_init(); false for a name that is activatable already
    method MakeActivatable(n: string) returns (created: bool)
      requires Valid()
      modifies this`activations
      ensures Valid() && Now() == old(Now())
      ensures created <==> n !in old(activations)
      ensures created ==>
        n in activations && fresh(activations[n]) && activations == old(activations)[n := activations[n]]
      ensures !created ==> activations == old(activations)
    {
      hide MatchIndex.MatchIndex.Valid;
      hide Names.NameRegistry.Valid;
      hide Replies.ReplyRegistries.Valid;
      hide Sound;
      hide Replays;
      created := n !in activations;
      if created {
        var act := new Activation.Activation();
        activations := activations[n := act];
        forall x | x in activations ensures ActivationSound(x) {
          assert x != n ==> old(ActivationSound(x));
        }
      }
    }

    // activation_deinit(): what still waits is released
    method DropActivatable(n: string)
      requires Valid() && n in activations
      modifies this`activations, activations[n]
      ensures Valid() && Now() == old(Now()) && activations == old(activations) - {n}
      ensures var act := old(activations)[n];
        && act.Quiet() && act.InOrder()
        && act.history == old(activations[n].history).(
             resolvedRequests := old(activations[n].history).resolvedRequests +
               Activation.All(old(activations[n].requests), Activation.Released),
             resolvedMessages := old(activations[n].history).resolvedMessages +
               Activation.All(old(activations[n].messages), Activation.Released))
    {
      hide MatchIndex.MatchIndex.Valid;
      hide Names.NameRegistry.Valid;
      hide Replies.ReplyRegistries.Valid;
      hide Sound;
      hide Replays;
      assert ActivationSound(n);
      activations[n].Deinit();
      activations := activations - {n};
      forall x | x in activations ensures ActivationSound(x) {
        assert old(ActivationSound(x));
      }
    }

    // ---------------------------------------------------------------- names

    function Primary(n: string): Option<nat>
      reads names`queues
    {
      Names.Primary(Names.QueueOf(names.queues, n))
    }

    // driver_method_request_name(): a new owner also takes over what waited for the name
    method RequestName(p: nat, n: string, f: Names.Flags) returns (r: NameReply)
      requires Valid() && Registered(peers, p)
      modifies this`changes, names, replies, activations.Values
      ensures r == NameInvalid <==> !Address.ValidName(n)
      ensures r == NameReserved <==> Address.ValidName(n) && n == DRIVER_NAME
      ensures r == NameUnique <==> Address.ValidName(n) && n != "" && n[0] == ':'
      ensures var q := Names.QueueOf(old(names.queues), n);
        if r.Requested? && r.request != Names.Quota
        then names.queues == old(names.queues)[n := Names.Enter(q, p, f)]
          && r.request == Names.RequestResult(q, p, f)
          && changes == Recorded(old(changes), Names.ChangeOf(n, q, Names.Enter(q, p, f)))
        else names.queues == old(names.queues) && changes == old(changes) && replies.slots == old(replies.slots)
      ensures var q := Names.QueueOf(old(names.queues), n); r.Requested? && r.request != Names.Quota ==>
        (Primary(n) == Some(p) <==> q == [] || q[0].owner == p || (f.replaceExisting && q[0].flags.allowReplacement))
      ensures n in activations && Primary(n) != old(Primary(n)) ==> ServedTo(n, p)
      ensures forall x :: x in activations && (x != n || Primary(n) == old(Primary(n))) ==> unchanged(activations[x])
      ensures n !in activations || Primary(n) == old(Primary(n)) ==> replies.slots == old(replies.slots)
      ensures Valid()
    {
      Names.TakesOverIff(Names.QueueOf(names.queues, n), p, f);
      ValidNameIsNotEmpty(n);
      if !Address.ValidName(n) {
        return NameInvalid;
      }
      if n == DRIVER_NAME {
        return NameReserved;
      }
      if n[0] == ':' {
        return NameUnique;
      }
      var rr := Claim(p, n, f);
      return Requested(rr);
    }

    method Claim(p: nat, n: string, f: Names.Flags) returns (r: Names.RequestReply)
      requires Valid() && Registered(peers, p)
      requires n != "" && n[0] != ':' && n != DRIVER_NAME
      modifies this`changes, names, replies, activations.Values
      ensures Valid()
      ensures var q := Names.QueueOf(old(names.queues), n);
        if r != Names.Quota
        then names.queues == old(names.queues)[n := Names.Enter(q, p, f)]
          && r == Names.RequestResult(q, p, f)
          && changes == Recorded(old(changes), Names.ChangeOf(n, q, Names.Enter(q, p, f)))
        else names.queues == old(names.queues) && changes == old(changes) && replies.slots == old(replies.slots)
      ensures n in activations && Primary(n) != old(Primary(n)) ==> ServedTo(n, p)
      ensures forall x :: x in activations && (x != n || Primary(n) == old(Primary(n))) ==> unchanged(activations[x])
      ensures n !in activations || Primary(n) == old(Primary(n)) ==> replies.slots == old(replies.slots)
    {
      hide MatchIndex.MatchIndex.Valid;
      hide Names.NameRegistry.Valid;
      hide Replies.ReplyRegistries.Valid;
      hide Sound;
      hide Replays;
      hide Names.Enter;
      hide Names.RequestResult;
      hide Recorded;
      ClaimSound(p, n, f);
      SoundAnnounceable();
      hide Announceable;
      var changed;
      r, changed := RequestAnnounced(p, n, f);
      if changed {
        NameActivated(n, p);
      }
    }

    // the name changes hands, and everybody is told
    method RequestAnnounced(p: nat, n: string, f: Names.Flags) returns (r: Names.RequestReply, changed: bool)
      requires ActivationsSound() && Replays() && Announceable()
      requires n != "" && n[0] != ':' && n != DRIVER_NAME
      modifies this`changes, names
      ensures names.Valid() && Replays()
      ensures var q := Names.QueueOf(old(names.queues), n);
        if r != Names.Quota
        then names.queues == old(names.queues)[n := Names.Enter(q, p, f)]
          && r == Names.RequestResult(q, p, f)
          && changes == Recorded(old(changes), Names.ChangeOf(n, q, Names.Enter(q, p, f)))
        else names.queues == old(names.queues) && changes == old(changes) && !changed
      ensures changed <==> Primary(n) != old(Primary(n))
      ensures if changed && n in activations then SoundBeside(n) else ActivationsSound()
    {
      hide *;
      AnnounceableParts();
      AnnounceableWith(n, Names.Enter(Names.QueueOf(names.queues, n), p, f));
      ReplaysAre();
      ReplayStep(changes, names.queues, peers, n, Names.Enter(Names.QueueOf(names.queues, n), p, f));
      var change;
      r, change := RequestQueue(p, n, f);
      changed := change.Some?;
      if changed {
        AnnounceableAgain();
        var subscribers, monitors := AnnounceChange(change.value);
      }
      RecordedIs(old(changes), change);
      ReplaysAre();
    }

    // name_registry_request_name() within some quota
    method RequestQueue(p: nat, n: string, f: Names.Flags)
      returns (r: Names.RequestReply, change: Option<Names.NameChange>)
      requires names.Valid() && ActivationsSound()
      modifies names
      ensures names.Valid()
      ensures change.Some? ==> change.value.name == n
      ensures var q := Names.QueueOf(old(names.queues), n);
        if r != Names.Quota
        then names.queues == old(names.queues)[n := Names.Enter(q, p, f)]
          && r == Names.RequestResult(q, p, f)
          && change == Names.ChangeOf(n, q, Names.Enter(q, p, f))
        else names.queues == old(names.queues) && change.None?
      ensures change.Some? <==> Primary(n) != old(Primary(n))
      ensures if change.Some? && n in activations then SoundBeside(n) else ActivationsSound()
    {
      hide Names.NameRegistry.Valid;
      hide Names.Enter;
      hide Names.RequestResult;
      var quota: bool := *;
      r, change := names.Request(p, n, f, quota);
      if r == Names.Quota {
        return;
      }
      forall x | x in activations && (x != n || change.None?) ensures ActivationSound(x) {
        assert old(ActivationSound(x));
      }
      assert n in activations ==> old(ActivationSound(n));
    }

    lemma ClaimSound(p: nat, n: string, f: Names.Flags)
      requires Valid() && Registered(peers, p)
      requires n != "" && n[0] != ':' && n != DRIVER_NAME
      ensures Sound(Requeued(Now(), n, Names.Enter(Names.QueueOf(names.queues, n), p, f)))
    {
      var q := Names.QueueOf(names.queues, n);
      assert Names.Disciplined(q);
      forall o | Names.Queued(Names.Enter(q, p, f), o) ensures Registered(peers, o) {
        if o != p {
          Names.EnterQueued(q, p, f, o);
          assert Names.Queued(Names.QueueOf(names.queues, n), o);
        }
      }
      RequeuedSound(Now(), n, Names.Enter(q, p, f));
    }

    // driver_method_release_name()
    method ReleaseName(p: nat, n: string) returns (r: NameReply)
      requires Valid() && Registered(peers, p)
      modifies this`changes, names
      ensures Valid()
      ensures r == NameInvalid <==> !Address.ValidName(n)
      ensures r == NameReserved <==> Address.ValidName(n) && n == DRIVER_NAME
      ensures r == NameUnique <==> Address.ValidName(n) && n != "" && n[0] == ':'
      ensures var q := Names.QueueOf(old(names.queues), n);
        if r.Left?
        then (r.release == Names.NotFound <==> q == []) && (r.release == Names.Released <==> Names.Queued(q, p))
          && (r.release == Names.Released ==> names.queues == old(names.queues)[n := Names.Others(q, p)])
          && (r.release != Names.Released ==> names.queues == old(names.queues))
          && changes == Recorded(old(changes), Names.ChangeOf(n, q, Names.QueueOf(names.queues, n)))
        else names.queues == old(names.queues) && changes == old(changes)
    {
      ValidNameIsNotEmpty(n);
      if !Address.ValidName(n) {
        return NameInvalid;
      }
      if n == DRIVER_NAME {
        return NameReserved;
      }
      if n[0] == ':' {
        return NameUnique;
      }
      var rr := GiveUp(p, n);
      return Left(rr);
    }

    method GiveUp(p: nat, n: string) returns (r: Names.ReleaseReply)
      requires Valid() && n != DRIVER_NAME && (n != "" ==> n[0] != ':')
      modifies this`changes, names
      ensures Valid()
      ensures var q := Names.QueueOf(old(names.queues), n);
        && (r == Names.NotFound <==> q == []) && (r == Names.Released <==> Names.Queued(q, p))
        && (r == Names.Released ==> names.queues == old(names.queues)[n := Names.Others(q, p)])
        && (r != Names.Released ==> names.queues == old(names.queues))
        && changes == Recorded(old(changes), Names.ChangeOf(n, q, Names.QueueOf(names.queues, n)))
    {
      hide MatchIndex.MatchIndex.Valid;
      hide Names.NameRegistry.Valid;
      hide Replies.ReplyRegistries.Valid;
      hide Sound;
      hide ActivationsSound;
      hide Replays;
      hide Names.Others;
      hide Names.ChangeOf;
      hide Names.Queued;
      hide Recorded;
      GiveUpSound(p, n);
      ReplayRelease(p, n);
      var change;
      r, change := ReleaseQueue(p, n);
      if change.Some? {
        SoundAnnounceable();
        var subscribers, monitors := AnnounceChange(change.value);
      }
      RecordedIs(old(changes), change);
      ReplaysAre();
    }

    // what the record of a release will replay to
    lemma ReplayRelease(p: nat, n: string)
      requires Replays() && (n != "" ==> n[0] != ':')
      ensures var q := Names.QueueOf(names.queues, n);
        && ReplaysTo(Recorded(changes, Names.ChangeOf(n, q, Names.Others(q, p))),
                     names.queues[n := Names.Others(q, p)], peers)
        && ReplaysTo(Recorded(changes, Names.ChangeOf(n, q, q)), names.queues, peers)
    {
      hide *;
      ReplaysAre();
      ReplayStep(changes, names.queues, peers, n, Names.Others(Names.QueueOf(names.queues, n), p));
      ReplaySame(changes, names.queues, n);
    }

    // name_registry_release_name()
    method ReleaseQueue(p: nat, n: string) returns (r: Names.ReleaseReply, change: Option<Names.NameChange>)
      requires names.Valid() && ActivationsSound()
      modifies names
      ensures names.Valid() && ActivationsSound()
      ensures change.Some? ==> change.value.name == n
      ensures var q := Names.QueueOf(old(names.queues), n);
        && (r == Names.NotFound <==> q == []) && (r == Names.Released <==> Names.Queued(q, p))
        && (r == Names.Released ==> names.queues == old(names.queues)[n := Names.Others(q, p)])
        && (r != Names.Released ==> names.queues == old(names.queues))
        && change == Names.ChangeOf(n, q, Names.QueueOf(names.queues, n))
    {
      hide Names.NameRegistry.Valid;
      hide Names.ChangeOf;
      hide Names.Queued;
      ghost var q := Names.QueueOf(names.queues, n);
      r, change := names.Release(p, n);
      forall x | x in activations ensures ActivationSound(x) {
        assert old(ActivationSound(x));
        assert Names.Others(q, p) != [] ==> q != [];
      }
    }

    lemma GiveUpSound(p: nat, n: string)
      requires Valid()
      ensures var q := Names.QueueOf(names.queues, n);
        q != [] ==> Sound(Requeued(Now(), n, Names.Others(q, p)))
      ensures Names.Queued([], p) == false
    {
      var q := Names.QueueOf(names.queues, n);
      if q != [] {
        forall o | Names.Queued(Names.Others(q, p), o) ensures Registered(peers, o) {
          Names.OthersQueued(q, p, o);
          assert Names.Queued(Names.QueueOf(names.queues, n), o);
        }
        RequeuedSound(Now(), n, Names.Others(q, p));
      }
    }
  }

  // the slots of the messages that were served since
  ghost function ServedSlots(peers: Peers, before: seq<(Activation.Message, Activation.Resolution)>,
                             after: seq<(Activation.Message, Activation.Resolution)>, receiver: nat): set<Replies.Slot>
  {
    set i | |before| <= i < |after| && ExpectsReply(peers, after[i])
      :: Replies.Slot(receiver, after[i].0.sender, after[i].0.sender, after[i].0.serial)
  }

  predicate ExpectsReply(peers: Peers, e: (Activation.Message, Activation.Resolution)) {
    e.1 == Activation.Served && Registered(peers, e.0.sender) && e.0.serial != 0
  }

  lemma NoneServed(peers: Peers, before: seq<(Activation.Message, Activation.Resolution)>, receiver: nat)
    ensures ServedSlots(peers, before, before, receiver) == {}
  {
  }

  lemma OneServed(peers: Peers, before: seq<(Activation.Message, Activation.Resolution)>,
                  after: seq<(Activation.Message, Activation.Resolution)>, m: Activation.Message,
                  how: Activation.Resolution, receiver: nat)
    requires |before| <= |after|
    ensures ServedSlots(peers, before, after + [(m, how)], receiver) ==
      ServedSlots(peers, before, after, receiver) +
      if ExpectsReply(peers, (m, how)) then {Replies.Slot(receiver, m.sender, m.sender, m.serial)} else {}
  {
    var more := after + [(m, how)];
    assert more[|after|] == (m, how) && forall i :: 0 <= i < |after| ==> more[i] == after[i];
    forall s | s in ServedSlots(peers, before, after, receiver)
      ensures s in ServedSlots(peers, before, more, receiver) {
      var i :| |before| <= i < |after| && ExpectsReply(peers, after[i])
        && s == Replies.Slot(receiver, after[i].0.sender, after[i].0.sender, after[i].0.serial);
      assert more[i] == after[i];
    }
  }

  lemma DepartedIs(v: View, p: nat)
    requires p in v.peers
    ensures Departed(v, p) == View(
      v.peers[p := GONE], v.ids, v.nPeers,
      Recounted(v.nRegistered, v.peers[p].registered, false), Recounted(v.nMonitors, v.peers[p].monitor, false),
      QueuesWithout(v.queues, p), SlotsNotTo(SlotsNotFrom(v.slots, p), p), RulesOfOthers(v.rules, p),
      Outside(Outside(LinksOfOthers(v.links, p), PeerSender(p)), PeerOwnerChanged(p)), v.missed)
  {
  }

  lemma NoMonitorsNoLinks(links: Links, peers: Peers)
    requires LinksByRole(links, peers) && |Monitors(peers)| == 0
    ensures forall r :: r in links ==> !links[r].tree.monitor
  {
    forall r | r in links ensures !links[r].tree.monitor {
      assert r.owner !in Monitors(peers);
    }
  }

  lemma LinksFollowRoles(v: View)
    requires Sound(v)
    ensures LinksByRole(v.links, v.peers)
  {
    forall r | r in v.links
      ensures InRole(v.peers, r.owner, v.links[r].tree.monitor) && !InRole(v.peers, r.owner, !v.links[r].tree.monitor) {
      assert LinkSound(r, v.links[r], v.peers) && Active(v.peers, r.owner);
    }
  }

  lemma ValidNameIsNotEmpty(n: string)
    ensures Address.ValidName(n) ==> n != ""
  {
  }

  lemma RulesCounted(v: View)
    requires Sound(v)
    ensures forall r :: r in v.rules ==> v.rules[r] > 0
    ensures forall r :: r in v.links ==> r in v.rules
  {
  }

  lemma RolesCounted(v: View, p: nat)
    requires Sound(v) && p in v.peers
    ensures !(v.peers[p].registered && v.peers[p].monitor)
    ensures v.peers[p].registered ==> v.nRegistered > 0
    ensures v.peers[p].monitor ==> v.nMonitors > 0
  {
    assert v.peers[p].registered ==> p in RegisteredPeers(v.peers);
    assert v.peers[p].monitor ==> p in Monitors(v.peers);
  }

  lemma LinkOfSubscriber(v: View, r: Rule)
    requires Sound(v) && Registered(v.peers, r.owner) && Relinkable(v, r)
    ensures r in v.links && Home(r.keys, v.peers, v.ids).Some? ==>
      v.links[r] == Link(Tree(Home(r.keys, v.peers, v.ids).value, false), true)
    ensures !IsMonitor(v.peers, r.owner)
  {
    hide Home;
    if r in v.links {
      assert LinkSound(r, v.links[r], v.peers);
    }
  }

  lemma UnsubscribedRuleSound(v: View, r: Rule)
    requires Sound(v) && r in v.rules
    ensures v.rules[r] > 0 && Sound(Unsubscribed(v, r))
  {
    UnsubscribedIsFewer(v, r);
    var v' := Unsubscribed(v, r);
    hide Sound;
    hide FewerRules;
    UnsubscribedSound(v, v'.rules, v'.links);
  }

  lemma UnsubscribedIsFewer(v: View, r: Rule)
    requires RulesSound(v.rules, v.links, v.peers) && r in v.rules
    ensures v.rules[r] > 0 && FewerRules(v, Unsubscribed(v, r).rules, Unsubscribed(v, r).links)
  {
    hide LinkSound;
  }
}
