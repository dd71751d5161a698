/**
 How long a Name object lives (src/bus/name.c). It is pinned by the entries of its queue, by its
 activation, and once for every reference to a rule that stands in one of its registries
 (peer_link_match() and peer_match_rule_to_name() in src/bus/peer.c).
 */
module NamePins {
  import opened Base
  import opened MatchKeys
  import opened MatchForest
  import opened Routing
  import opened BusState
  import Names

  // What pins a name
  datatype Holder =
    | RuleRef(rule: Rule, i: nat)            // the i-th reference to a rule
    | InQueue(name: string, owner: nat)      // an entry of the queue
    | Activatable(name: string)
    | Forgotten(i: nat)                      // of a rule reference that is gone, see NamedAgain

  type Holders = map<Holder, string>

  // The Name whose registry a rule stands in, if any
  function PinnedBy(k: RuleKeys): Option<string> {
    if Subject(k).Some? then None else Target(k)
  }

  // peer_match_rule_to_name() finds the Name again, unless it looks like a unique name.
  predicate NamedAgain(k: RuleKeys) {
    PinnedBy(k).Some? && !LooksUnique(PinnedBy(k).value)
  }

  lemma UniqueIsForgotten(k: RuleKeys)
    ensures NamedAgain(k) <==> PinnedBy(k).Some? && (PinnedBy(k).value == "" || PinnedBy(k).value[0] != ':')
  {
  }

  ghost function HoldersOf(holders: Holders, n: string): set<Holder> {
    set h | h in holders && holders[h] == n
  }

  lemma HoldersMore(holders: Holders, h: Holder, n: string, m: string)
    requires h !in holders
    ensures HoldersOf(holders[h := n], m) == HoldersOf(holders, m) + if m == n then {h} else {}
    ensures h !in HoldersOf(holders, m)
  {
  }

  lemma HoldersLess(holders: Holders, h: Holder, m: string)
    requires h in holders
    ensures HoldersOf(holders - {h}, m) == HoldersOf(holders, m) - {h}
    ensures h in HoldersOf(holders, m) <==> holders[h] == m
  {
  }

  // ---------------------------------------------------------------- what the holders are

  // A Name exists exactly while something holds it, and counts what does.
  ghost predicate CountsHolders(refs: map<string, nat>, holders: Holders) {
    forall n ::
      && (n in refs <==> HoldersOf(holders, n) != {})
      && (n in refs ==> refs[n] == |HoldersOf(holders, n)|)
  }

  // the references to rules and what they hold
  ghost predicate RulesPin(holders: Holders, rules: map<Rule, nat>) {
    && (forall r: Rule, i: nat :: RuleRef(r, i) in holders <==> PinnedBy(r.keys).Some? && r in rules && i < rules[r])
    && (forall r: Rule, i: nat :: RuleRef(r, i) in holders ==> holders[RuleRef(r, i)] == PinnedBy(r.keys).value)
  }

  // an entry of a queue holds its name
  ghost predicate QueuesPin(holders: Holders, queues: Names.Queues) {
    && (forall n, o: nat :: InQueue(n, o) in holders <==> Names.Queued(Names.QueueOf(queues, n), o))
    && (forall n, o: nat :: InQueue(n, o) in holders ==> holders[InQueue(n, o)] == n)
  }

  ghost predicate ActivationsPin(holders: Holders, activatable: set<string>) {
    && (forall n :: Activatable(n) in holders <==> n in activatable)
    && (forall n :: Activatable(n) in holders ==> holders[Activatable(n)] == n)
  }

  ghost predicate ForgottenPin(holders: Holders, nForgotten: nat) {
    forall i: nat :: Forgotten(i) in holders ==> i < nForgotten && LooksUnique(holders[Forgotten(i)])
  }

  predicate LooksUnique(n: string) {
    n != "" && n[0] == ':'
  }

  // ---------------------------------------------------------------- steps of the holders

  // A holder of one kind comes or goes; those of the other kinds do not notice.
  lemma RuleHolds(holders: Holders, rules: map<Rule, nat>, r: Rule)
    requires RulesPin(holders, rules)
    ensures var i := if r in rules then rules[r] else 0;
      && RuleRef(r, i) !in holders
      && RulesPin(
           if PinnedBy(r.keys).None? then holders else holders[RuleRef(r, i) := PinnedBy(r.keys).value],
           rules[r := i + 1])
  {
    hide PinnedBy;
  }

  lemma RuleLetsGo(holders: Holders, rules: map<Rule, nat>, r: Rule)
    requires RulesPin(holders, rules) && r in rules && rules[r] > 0
    ensures var i := rules[r] - 1;
      && (RuleRef(r, i) in holders <==> PinnedBy(r.keys).Some?)
      && (PinnedBy(r.keys).Some? ==> holders[RuleRef(r, i)] == PinnedBy(r.keys).value)
      && RulesPin(holders - {RuleRef(r, i)}, OneLess(rules, r))
  {
    hide PinnedBy;
  }

  function OneLess(rules: map<Rule, nat>, r: Rule): map<Rule, nat>
    requires r in rules && rules[r] > 0
  {
    if rules[r] > 1 then rules[r := rules[r] - 1] else rules - {r}
  }

  lemma OtherKinds(holders: Holders, h: Holder, n: string, rules: map<Rule, nat>, queues: Names.Queues,
                   activatable: set<string>, nForgotten: nat)
    ensures !h.RuleRef? && RulesPin(holders, rules) ==>
      RulesPin(holders[h := n], rules) && RulesPin(holders - {h}, rules)
    ensures !h.InQueue? && QueuesPin(holders, queues) ==>
      QueuesPin(holders[h := n], queues) && QueuesPin(holders - {h}, queues)
    ensures !h.Activatable? && ActivationsPin(holders, activatable) ==>
      ActivationsPin(holders[h := n], activatable) && ActivationsPin(holders - {h}, activatable)
    ensures !h.Forgotten? && ForgottenPin(holders, nForgotten) ==>
      ForgottenPin(holders[h := n], nForgotten) && ForgottenPin(holders - {h}, nForgotten)
  {
    hide PinnedBy;
    hide Names.Queued;
  }

  lemma EntryHolds(holders: Holders, queues: Names.Queues, n: string, o: nat, q: Names.Queue)
    requires QueuesPin(holders, queues) && Entered(Names.QueueOf(queues, n), o, q)
    ensures InQueue(n, o) !in holders && QueuesPin(holders[InQueue(n, o) := n], queues[n := q])
  {
    hide Names.Queued;
  }

  lemma EntryLetsGo(holders: Holders, queues: Names.Queues, n: string, o: nat, q: Names.Queue)
    requires QueuesPin(holders, queues) && Left(Names.QueueOf(queues, n), o, q)
    ensures InQueue(n, o) in holders && holders[InQueue(n, o)] == n
    ensures QueuesPin(holders - {InQueue(n, o)}, queues[n := q])
  {
    hide Names.Queued;
  }

  lemma SameEntries(holders: Holders, queues: Names.Queues, n: string, q: Names.Queue)
    requires QueuesPin(holders, queues)
    requires forall x: nat :: Names.Queued(q, x) <==> Names.Queued(Names.QueueOf(queues, n), x)
    ensures QueuesPin(holders, queues[n := q])
  {
    hide Names.Queued;
  }

  // o and nobody else enters or leaves the queue
  ghost predicate Entered(q: Names.Queue, o: nat, q': Names.Queue) {
    !Names.Queued(q, o) && forall x: nat :: Names.Queued(q', x) <==> Names.Queued(q, x) || x == o
  }

  ghost predicate Left(q: Names.Queue, o: nat, q': Names.Queue) {
    Names.Queued(q, o) && forall x: nat :: Names.Queued(q', x) <==> Names.Queued(q, x) && x != o
  }

  // whom RequestName drops from the queue
  predicate Ousts(q: Names.Queue, o: nat, f: Names.Flags) {
    q != [] && q[0].owner != o && Names.Replaces(q, f) && q[0].flags.doNotQueue
  }

  lemma RequeuedTwice(v: View, n: string, q1: Names.Queue, q2: Names.Queue)
    ensures Names.QueueOf(Requeued(v, n, q1).queues, n) == q1
    ensures Requeued(Requeued(v, n, q1), n, q2) == Requeued(v, n, q2)
  {
  }

  lemma OustedIsFirst(q: Names.Queue, o: nat, f: Names.Flags)
    ensures Ousts(q, o, f) ==> q != []
  {
  }

  // One entry at a time: the caller's comes if it is not there, then the one that is dropped goes.
  lemma RequestInSteps(q: Names.Queue, o: nat, f: Names.Flags)
    requires Names.Disciplined(q)
    ensures var q1 := if Names.Queued(q, o) then q else q + [Names.Ownership(o, f)];
            var q2 := Names.Enter(q, o, f);
      && (!Names.Queued(q, o) ==> Entered(q, o, q1))
      && (Ousts(q, o, f) ==> Left(q1, q[0].owner, q2))
      && (!Ousts(q, o, f) && Names.RequestResult(q, o, f) == Names.Exists ==> Left(q1, o, q2))
      && (!Ousts(q, o, f) && Names.RequestResult(q, o, f) != Names.Exists ==>
            forall x: nat :: Names.Queued(q2, x) <==> Names.Queued(q1, x))
  {
    var q1 := if Names.Queued(q, o) then q else q + [Names.Ownership(o, f)];
    forall x: nat ensures Names.Queued(q1, x) <==> Names.Queued(q, x) || x == o {
      AppendQueued(q, Names.Ownership(o, f), x);
    }
    Names.ReplyTellsPosition(q, o, f);
    forall x: nat | x != o
      ensures Names.Queued(Names.Enter(q, o, f), x) <==> Names.Queued(q, x) && !(Ousts(q, o, f) && x == q[0].owner) {
      Names.EnterQueued(q, o, f, x);
    }
    assert Ousts(q, o, f) ==> Names.Queued(q, q[0].owner);
    hide Names.Enter;
    hide Names.Disciplined;
    hide Names.Queued;
  }

  lemma AppendQueued(q: Names.Queue, e: Names.Ownership, x: nat)
    ensures Names.Queued(q + [e], x) <==> Names.Queued(q, x) || x == e.owner
  {
    var r := q + [e];
    assert r[|q|] == e;
    if i :| 0 <= i < |q| && q[i].owner == x {
      assert r[i].owner == x;
    }
  }

  lemma OneMoreForgotten(holders: Holders, n: string, nForgotten: nat)
    requires ForgottenPin(holders, nForgotten) && LooksUnique(n)
    ensures Forgotten(nForgotten) !in holders
    ensures ForgottenPin(holders[Forgotten(nForgotten) := n], nForgotten + 1)
  {
    hide LooksUnique;
  }

  // A reference that changes hands is still counted.
  lemma StillCounted(refs: map<string, nat>, holders: Holders, h: Holder, f: Holder)
    requires CountsHolders(refs, holders) && h in holders && f !in holders
    ensures CountsHolders(refs, (holders - {h})[f := holders[h]])
  {
    var n, less := holders[h], holders - {h};
    var before := HoldersOf(holders, n);
    forall m ensures HoldersOf(less[f := n], m) == if m == n then before - {h} + {f} else HoldersOf(holders, m) {
      HoldersLess(holders, h, m);
      HoldersMore(less, f, n, m);
    }
    HoldersLess(holders, h, n);
    assert f !in before && |before - {h} + {f}| == |before|;
  }

  lemma HeldByNone(refs: map<string, nat>, holders: Holders, n: string)
    requires CountsHolders(refs, holders) && n !in refs
    ensures forall h :: h in holders ==> holders[h] != n
  {
    assert HoldersOf(holders, n) == {};
    forall h | h in holders ensures holders[h] == n ==> h in HoldersOf(holders, n) {
    }
  }

  lemma QueuedWhenHeld(holders: Holders, queues: Names.Queues, n: string)
    requires QueuesPin(holders, queues)
    ensures Names.QueueOf(queues, n) != [] <==> exists o: nat :: InQueue(n, o) in holders
  {
    var q := Names.QueueOf(queues, n);
    if q != [] {
      assert Names.Queued(q, q[0].owner);
      assert InQueue(n, q[0].owner) in holders;
    }
  }

  lemma CountsOneMore(refs: map<string, nat>, holders: Holders, h: Holder, n: string)
    requires CountsHolders(refs, holders) && h !in holders
    ensures CountsHolders(refs[n := (if n in refs then refs[n] else 0) + 1], holders[h := n])
  {
    var before := HoldersOf(holders, n);
    forall m ensures HoldersOf(holders[h := n], m) == if m == n then before + {h} else HoldersOf(holders, m) {
      HoldersMore(holders, h, n, m);
    }
    HoldersMore(holders, h, n, n);
    hide HoldersOf;
    assert |before + {h}| == |before| + 1;
  }

  // The rules of a sound bus that stand in a registry of a Name hold it.
  lemma LinkedByName(v: View, r: Rule, n: string)
    requires Sound(v) && r in v.links
    ensures r in v.rules && v.rules[r] > 0
    ensures v.links[r].tree.registry in {NameSender(n), NameOwnerChanged(n)} ==> PinnedBy(r.keys) == Some(n)
  {
    assert StandsRight(r.keys, v.links[r].tree.registry);
    hide Sound;
    if v.links[r].tree.registry in {NameSender(n), NameOwnerChanged(n)} {
      StandsByName(r.keys, v.links[r].tree.registry, n);
    }
  }

  lemma StandsByName(k: RuleKeys, reg: RegistryId, n: string)
    requires reg in {NameSender(n), NameOwnerChanged(n)}
    ensures StandsRight(k, reg) ==> PinnedBy(k) == Some(n)
  {
  }

  class NamePins {
    var refs: map<string, nat>          // the Name objects with their n_refs
    var rules: map<Rule, nat>           // n_user_refs of all rules that were linked
    ghost var holders: Holders
    ghost var nForgotten: nat

    // The holders are what a bus in state v, with these activatable names, has of each kind.
    ghost predicate Mirrors(v: View, activatable: set<string>)
      reads this
    {
      && rules == v.rules
      && CountsHolders(refs, holders)
      && RulesPin(holders, rules)
      && QueuesPin(holders, v.queues)
      && ActivationsPin(holders, activatable)
      && ForgottenPin(holders, nForgotten)
    }

    constructor ()
      ensures Mirrors(EMPTY_BUS, {})
    {
      refs, rules, holders, nForgotten := map[], map[], map[], 0;
    }

    // A Name is never freed too early: the assertions of name_free() hold on a bus, and none of its rules
    // stands in a registry of a Name that is not there.
    lemma FreedIsUnused(v: View, activatable: set<string>, n: string)
      requires Mirrors(v, activatable) && Sound(v) && n !in refs
      ensures Names.QueueOf(v.queues, n) == [] && n !in activatable
      ensures forall r :: r in v.rules ==> PinnedBy(r.keys) != Some(n)
      ensures forall r :: r in v.links ==> v.links[r].tree.registry !in {NameSender(n), NameOwnerChanged(n)}
    {
      HeldByNone(refs, holders, n);
      QueuedWhenHeld(holders, v.queues, n);
      assert forall r :: r in v.rules ==> v.rules[r] > 0;
      hide Sound;
      hide CountsHolders;
      hide PinnedBy;
      forall r | r in v.rules ensures PinnedBy(r.keys) != Some(n) {
        assert RuleRef(r, 0) in holders ==> holders[RuleRef(r, 0)] != n;
      }
      forall r | r in v.links ensures v.links[r].tree.registry !in {NameSender(n), NameOwnerChanged(n)} {
        LinkedByName(v, r, n);
      }
    }

    // A Name that does not look like a unique name goes with the last thing that uses it.
    lemma OnlyInUse(v: View, activatable: set<string>, n: string)
      requires Mirrors(v, activatable) && n in refs && !LooksUnique(n)
      ensures || (exists r :: r in v.rules && v.rules[r] > 0 && PinnedBy(r.keys) == Some(n))
              || Names.QueueOf(v.queues, n) != [] || n in activatable
    {
      var h :| h in HoldersOf(holders, n);
      match h
      case RuleRef(r, i) =>
        assert r in rules && rules[r] > 0 && PinnedBy(r.keys) == Some(n);
      case InQueue(m, o) =>
        assert Names.Queued(Names.QueueOf(v.queues, n), o);
      case Activatable(m) =>
      case Forgotten(i) =>
        assert false;
    }

    // name_registry_ref_name() or name_ref()
    method Ref(n: string, ghost h: Holder)
      requires CountsHolders(refs, holders) && h !in holders
      modifies this`refs, this`holders
      ensures CountsHolders(refs, holders) && holders == old(holders)[h := n]
    {
      CountsOneMore(refs, holders, h, n);
      hide CountsHolders;
      refs := refs[n := (if n in refs then refs[n] else 0) + 1];
      holders := holders[h := n];
    }

    // name_unref(): the last reference frees the Name, which nothing uses any more
    method Unref(n: string, ghost h: Holder)
      requires CountsHolders(refs, holders) && h in holders && holders[h] == n
      modifies this`refs, this`holders
      ensures CountsHolders(refs, holders) && holders == old(holders) - {h}
      ensures n !in refs ==> HoldersOf(holders, n) == {}
    {
      forall m ensures HoldersOf(holders - {h}, m) == HoldersOf(holders, m) - {h} &&
        (h in HoldersOf(holders, m) <==> m == n) {
        HoldersLess(holders, h, m);
      }
      ghost var before := HoldersOf(holders, n);
      assert |before - {h}| == |before| - 1;
      holders := holders - {h};
      if refs[n] == 1 {
        assert before - {h} == {};
        refs := refs - {n};
      } else {
        assert before - {h} != {};
        refs := refs[n := refs[n] - 1];
      }
    }

    // a reference to a rule is added and linked: the name is pinned once more
    method AddMatch(r: Rule, ghost v: View, ghost activatable: set<string>)
      requires Mirrors(v, activatable)
      modifies this
      ensures Mirrors(Subscribed(v, r), activatable)
    {
      RuleHolds(holders, rules, r);
      hide PinnedBy;
      hide Home;
      hide CountsHolders;
      hide RulesPin;
      hide QueuesPin;
      hide ActivationsPin;
      hide ForgottenPin;
      var i, target := if r in rules then rules[r] else 0, PinnedBy(r.keys);
      rules := rules[r := i + 1];
      if target.Some? {
        OtherKinds(holders, RuleRef(r, i), target.value, rules, v.queues, activatable, nForgotten);
        Ref(target.value, RuleRef(r, i));
      }
    }

    // a reference to a rule is dropped: the name is released if it is found again
    method RemoveMatch(r: Rule, ghost v: View, ghost activatable: set<string>)
      requires Mirrors(v, activatable) && r in v.rules && v.rules[r] > 0
      modifies this
      ensures Mirrors(Unsubscribed(v, r), activatable)
      ensures var n := PinnedBy(r.keys); n.None? || (n.value != "" && n.value[0] == ':') ==> refs == old(refs)
    {
      UniqueIsForgotten(r.keys);
      RuleLetsGo(holders, rules, r);
      hide PinnedBy;
      hide LooksUnique;
      hide CountsHolders;
      hide RulesPin;
      hide QueuesPin;
      hide ActivationsPin;
      hide ForgottenPin;
      var i, target := rules[r] - 1, PinnedBy(r.keys);
      ghost var h := RuleRef(r, i);
      rules := if i > 0 then rules[r := i] else rules - {r};
      if target.Some? {
        OtherKinds(holders, h, target.value, rules, v.queues, activatable, nForgotten);
        if NamedAgain(r.keys) {
          Unref(target.value, h);
        } else {
          Forget(target.value, h, v.queues, activatable);
        }
      } else {
        assert holders - {h} == holders;
      }
    }

    // nobody is left to release this reference
    ghost method Forget(n: string, h: Holder, queues: Names.Queues, activatable: set<string>)
      requires CountsHolders(refs, holders) && h in holders && holders[h] == n && LooksUnique(n)
      requires !h.Forgotten? && RulesPin(holders - {h}, rules) && QueuesPin(holders - {h}, queues)
      requires ActivationsPin(holders - {h}, activatable) && ForgottenPin(holders - {h}, nForgotten)
      modifies this`holders, this`nForgotten
      ensures CountsHolders(refs, holders) && RulesPin(holders, rules) && QueuesPin(holders, queues)
      ensures ActivationsPin(holders, activatable) && ForgottenPin(holders, nForgotten)
    {
      var f, less := Forgotten(nForgotten), holders - {h};
      OneMoreForgotten(less, n, nForgotten);
      OtherKinds(less, f, n, rules, queues, activatable, nForgotten);
      StillCounted(refs, holders, h, f);
      holders, nForgotten := less[f := n], nForgotten + 1;
    }

    // name_ownership_new(): peer o enters the queue of n
    method Enter(n: string, o: nat, ghost q: Names.Queue, ghost v: View, ghost activatable: set<string>)
      requires Mirrors(v, activatable) && Entered(Names.QueueOf(v.queues, n), o, q)
      modifies this`refs, this`holders
      ensures Mirrors(Requeued(v, n, q), activatable)
    {
      EntryHolds(holders, v.queues, n, o, q);
      OtherKinds(holders, InQueue(n, o), n, rules, v.queues, activatable, nForgotten);
      hide CountsHolders;
      hide RulesPin;
      hide QueuesPin;
      hide ActivationsPin;
      hide ForgottenPin;
      Ref(n, InQueue(n, o));
    }

    // name_ownership_free(): peer o leaves it
    method Leave(n: string, o: nat, ghost q: Names.Queue, ghost v: View, ghost activatable: set<string>)
      requires Mirrors(v, activatable) && Left(Names.QueueOf(v.queues, n), o, q)
      modifies this`refs, this`holders
      ensures Mirrors(Requeued(v, n, q), activatable)
    {
      EntryLetsGo(holders, v.queues, n, o, q);
      OtherKinds(holders, InQueue(n, o), n, rules, v.queues, activatable, nForgotten);
      hide CountsHolders;
      hide RulesPin;
      hide QueuesPin;
      hide ActivationsPin;
      hide ForgottenPin;
      Unref(n, InQueue(n, o));
    }

    // name_registry_request_name(): the caller's entry comes first and goes again if it is refused
    method Request(n: string, o: nat, f: Names.Flags, q: Names.Queue, ghost v: View, ghost activatable: set<string>)
      requires Mirrors(v, activatable) && q == Names.QueueOf(v.queues, n) && Names.Disciplined(q)
      modifies this`refs, this`holders
      ensures Mirrors(Requeued(v, n, Names.Enter(q, o, f)), activatable)
    {
      hide *;
      RequestInSteps(q, o, f);
      OustedIsFirst(q, o, f);
      RequeuedTwice(v, n, q + [Names.Ownership(o, f)], Names.Enter(q, o, f));
      ghost var v1, q2 := v, Names.Enter(q, o, f);
      if !Names.Queued(q, o) {
        ghost var q1 := q + [Names.Ownership(o, f)];
        Enter(n, o, q1, v, activatable);
        v1 := Requeued(v, n, q1);
      }
      if Ousts(q, o, f) {
        Leave(n, q[0].owner, q2, v1, activatable);
      } else if Names.RequestResult(q, o, f) == Names.Exists {
        Leave(n, o, q2, v1, activatable);
      } else {
        SameHolders(v1, n, q2, activatable);
      }
    }

    // name_registry_release_name(), if the caller is in the queue
    method Release(n: string, o: nat, q: Names.Queue, ghost v: View, ghost activatable: set<string>)
      requires Mirrors(v, activatable) && q == Names.QueueOf(v.queues, n) && Names.Queued(q, o)
      modifies this`refs, this`holders
      ensures Mirrors(Requeued(v, n, Names.Others(q, o)), activatable)
    {
      forall x: nat ensures Names.Queued(Names.Others(q, o), x) <==> Names.Queued(q, x) && x != o {
        Names.OthersQueued(q, o, x);
      }
      hide Names.Others;
      hide Mirrors;
      hide Names.Queued;
      Leave(n, o, Names.Others(q, o), v, activatable);
    }

    lemma SameHolders(v: View, n: string, q: Names.Queue, activatable: set<string>)
      requires Mirrors(v, activatable)
      requires forall x: nat :: Names.Queued(q, x) <==> Names.Queued(Names.QueueOf(v.queues, n), x)
      ensures Mirrors(Requeued(v, n, q), activatable)
    {
      SameEntries(holders, v.queues, n, q);
    }

    // activation_init() and activation_deinit()
    method Activate(n: string, ghost v: View, ghost activatable: set<string>)
      requires Mirrors(v, activatable) && n !in activatable
      modifies this`refs, this`holders
      ensures Mirrors(v, activatable + {n})
    {
      OtherKinds(holders, Activatable(n), n, rules, v.queues, activatable, nForgotten);
      assert ActivationsPin(holders[Activatable(n) := n], activatable + {n});
      hide CountsHolders;
      hide RulesPin;
      hide QueuesPin;
      hide ForgottenPin;
      Ref(n, Activatable(n));
    }

    method Deactivate(n: string, ghost v: View, ghost activatable: set<string>)
      requires Mirrors(v, activatable) && n in activatable
      modifies this`refs, this`holders
      ensures Mirrors(v, activatable - {n})
    {
      OtherKinds(holders, Activatable(n), n, rules, v.queues, activatable, nForgotten);
      assert ActivationsPin(holders - {Activatable(n)}, activatable - {n});
      hide CountsHolders;
      hide RulesPin;
      hide QueuesPin;
      hide ForgottenPin;
      Unref(n, Activatable(n));
    }
  }
}
