/**
 Tracking of expected replies (src/bus/reply.c). A slot stands in two containers: in the
 tree of the peer that was called, and in the list of the peer that called.
 */
module Replies {
  import opened Base

  // The registry is the one of peer `callee`; `owner` is the peer whose list holds the slot.
  datatype Slot = Slot(callee: nat, owner: nat, id: nat, serial: nat)

  datatype Key = Key(id: nat, serial: nat)

  type Tree = map<Key, Slot>

  datatype NewResult = Created | Exists | Quota

  // How a slot came to its end
  datatype Outcome =
    | Forwarded     // a reply was queued on the caller
    | Dropped       // a reply came, but the caller had no quota for it or refuses its descriptors
    | NoReply       // the callee disconnected
    | CallerGone    // the caller disconnected
    | NotSent       // the call could not be queued on the callee

  datatype Event = Opened(slot: Slot) | Settled(slot: Slot, outcome: Outcome)

  // Replaying a history: a slot may be opened only while its key is free, and settled only
  // while it is open. None stands for a history that violates this.
  ghost function Outstanding(log: seq<Event>): Option<set<Slot>> {
    if log == [] then Some({})
    else
      match Outstanding(log[..|log| - 1])
      case None => None
      case Some(open) =>
        match log[|log| - 1]
        case Opened(s) =>
          if exists t :: t in open && SameKey(t, s) then None else Some(open + {s})
        case Settled(s, _) =>
          if s in open then Some(open - {s}) else None
  }

  predicate SameKey(s: Slot, t: Slot) {
    s.callee == t.callee && s.id == t.id && s.serial == t.serial
  }

  // the peer was called with this serial, and a reply is outstanding
  ghost predicate Expects(slots: set<Slot>, callee: nat, id: nat, serial: nat) {
    exists s :: s in slots && SameKey(s, Slot(callee, id, id, serial))
  }

  ghost function NotExpecting(slots: set<Slot>, callee: nat, id: nat, serial: nat): set<Slot> {
    set s | s in slots && !SameKey(s, Slot(callee, id, id, serial))
  }

  // A reply is expected from a peer by the caller with that id, for the call with that serial.
  lemma ExpectsIff(slots: set<Slot>, callee: nat, id: nat, serial: nat)
    ensures Expects(slots, callee, id, serial) <==>
      exists s :: s in slots && s.callee == callee && s.id == id && s.serial == serial
    ensures forall s :: s in NotExpecting(slots, callee, id, serial) <==>
      s in slots && !(s.callee == callee && s.id == id && s.serial == serial)
  {
    if s :| s in slots && s.callee == callee && s.id == id && s.serial == serial {
      assert SameKey(s, Slot(callee, id, id, serial));
    }
  }

  ghost function OpenedCount(log: seq<Event>, s: Slot): nat {
    if log == [] then 0
    else OpenedCount(log[..|log| - 1], s) + if log[|log| - 1] == Opened(s) then 1 else 0
  }

  ghost function SettledCount(log: seq<Event>, s: Slot): nat {
    if log == [] then 0
    else
      SettledCount(log[..|log| - 1], s)
      + if log[|log| - 1].Settled? && log[|log| - 1].slot == s then 1 else 0
  }

  // Conservation: in a history that replays, every opening is settled once, except the
  // one opening of a slot that is still outstanding.
  lemma {:induction false} Conservation(log: seq<Event>, s: Slot)
    requires Outstanding(log).Some?
    ensures OpenedCount(log, s) == SettledCount(log, s) + if s in Outstanding(log).value then 1 else 0
  {
    if log != [] {
      Conservation(log[..|log| - 1], s);
    }
  }

  // The history went on with exactly these slots being settled, each once and in its way.
  ghost predicate Settles(before: seq<Event>, after: seq<Event>, how: map<Slot, Outcome>) {
    && before <= after
    && NoDuplicates(after[|before|..])
    && forall e :: e in after[|before|..] <==> e.Settled? && e.slot in how && how[e.slot] == e.outcome
  }

  lemma SettlesOne(before: seq<Event>, log: seq<Event>, how: map<Slot, Outcome>, s: Slot, outcome: Outcome)
    requires Settles(before, log, how) && s !in how
    ensures Settles(before, log + [Settled(s, outcome)], how[s := outcome])
  {
    var e := Settled(s, outcome);
    assert (log + [e])[|before|..] == log[|before|..] + [e];
    assert e !in log[|before|..];
  }

  lemma SettlesBoth(a: seq<Event>, b: seq<Event>, c: seq<Event>, how: map<Slot, Outcome>, more: map<Slot, Outcome>)
    requires Settles(a, b, how) && Settles(b, c, more)
    requires forall s :: s in how ==> s !in more
    ensures Settles(a, c, how + more)
  {
    assert c[|a|..] == b[|a|..] + c[|b|..];
    NoDuplicatesConcat(b[|a|..], c[|b|..]);
  }

  lemma LogAppend(log: seq<Event>, e: Event)
    ensures (log + [e])[..|log|] == log && (log + [e])[|log|] == e
  {
  }

  // ---------------------------------------------------------------- the two containers

  type Trees = map<nat, Tree>
  type ReplyLists = map<nat, seq<Slot>>

  function TreeOf(trees: Trees, p: nat): Tree {
    if p in trees then trees[p] else map[]
  }

  function ListOf(lists: ReplyLists, p: nat): seq<Slot> {
    if p in lists then lists[p] else []
  }

  function KeyOf(s: Slot): Key {
    Key(s.id, s.serial)
  }

  // every slot is in the tree of its callee, under its own key, and in no other tree
  ghost predicate TreesHold(trees: Trees, slots: set<Slot>) {
    forall p :: TreeHolds(TreeOf(trees, p), slots, p)
  }

  ghost predicate TreeHolds(tree: Tree, slots: set<Slot>, p: nat) {
    && (forall k :: k in tree ==> tree[k] in slots && tree[k].callee == p && KeyOf(tree[k]) == k)
    && (forall s :: s in slots && s.callee == p ==> KeyOf(s) in tree && tree[KeyOf(s)] == s)
  }

  // every slot is once in the list of its owner, and in no other list
  ghost predicate ListsHold(lists: ReplyLists, slots: set<Slot>) {
    forall p :: ListHolds(lists, slots, p)
  }

  ghost predicate ListHolds(lists: ReplyLists, slots: set<Slot>, p: nat) {
    && NoDuplicates(ListOf(lists, p))
    && forall s :: s in ListOf(lists, p) <==> s in slots && s.owner == p
  }

  lemma TreesHoldMore(trees: Trees, slots: set<Slot>, s: Slot)
    requires TreesHold(trees, slots) && KeyOf(s) !in TreeOf(trees, s.callee)
    ensures TreesHold(trees[s.callee := TreeOf(trees, s.callee)[KeyOf(s) := s]], slots + {s})
  {
    var trees', slots' := trees[s.callee := TreeOf(trees, s.callee)[KeyOf(s) := s]], slots + {s};
    forall p ensures TreeHolds(TreeOf(trees', p), slots', p) {
      assert TreeHolds(TreeOf(trees, p), slots, p);
    }
  }

  lemma TreesHoldLess(trees: Trees, slots: set<Slot>, s: Slot)
    requires TreesHold(trees, slots) && s in slots
    ensures TreesHold(trees[s.callee := TreeOf(trees, s.callee) - {KeyOf(s)}], slots - {s})
  {
    var trees', slots' := trees[s.callee := TreeOf(trees, s.callee) - {KeyOf(s)}], slots - {s};
    forall p ensures TreeHolds(TreeOf(trees', p), slots', p) {
      assert TreeHolds(TreeOf(trees, p), slots, p);
    }
  }

  lemma ListsHoldMore(lists: ReplyLists, slots: set<Slot>, s: Slot)
    requires ListsHold(lists, slots) && s !in slots
    ensures ListsHold(lists[s.owner := ListOf(lists, s.owner) + [s]], slots + {s})
  {
    var lists', slots' := lists[s.owner := ListOf(lists, s.owner) + [s]], slots + {s};
    forall p ensures ListHolds(lists', slots', p) {
      assert ListHolds(lists, slots, p);
    }
  }

  lemma ListsHoldLess(lists: ReplyLists, slots: set<Slot>, s: Slot)
    requires ListsHold(lists, slots) && s in slots
    ensures ListsHold(lists[s.owner := Without(ListOf(lists, s.owner), s)], slots - {s})
  {
    var lists', slots' := lists[s.owner := Without(ListOf(lists, s.owner), s)], slots - {s};
    assert ListHolds(lists, slots, s.owner);
    WithoutMembers(ListOf(lists, s.owner), s);
    forall p ensures ListHolds(lists', slots', p) {
      assert ListHolds(lists, slots, p);
    }
  }

  class ReplyRegistries {
    var trees: Trees         // peer->replies
    var lists: ReplyLists    // peer->owned_replies
    ghost var slots: set<Slot>
    ghost var log: seq<Event>

    ghost predicate Valid()
      reads this
    {
      TreesHold(trees, slots) && ListsHold(lists, slots) && Outstanding(log) == Some(slots)
    }

    constructor ()
      ensures Valid() && slots == {} && log == []
    {
      trees, lists, slots, log := map[], map[], {}, [];
      new;
      forall p ensures ListHolds(lists, slots, p) {
      }
    }

    // reply_slot_get_by_id()
    method Find(callee: nat, id: nat, serial: nat) returns (r: Option<Slot>)
      requires Valid()
      ensures r.Some? <==> Expects(slots, callee, id, serial)
      ensures r.Some? ==>
        r.value in slots && r.value.callee == callee && r.value.id == id && r.value.serial == serial
      ensures r.Some? ==> NotExpecting(slots, callee, id, serial) == slots - {r.value}
    {
      var k := Key(id, serial);
      assert TreeHolds(TreeOf(trees, callee), slots, callee);
      if k in TreeOf(trees, callee) {
        assert SameKey(TreeOf(trees, callee)[k], Slot(callee, id, id, serial));
        return Some(TreeOf(trees, callee)[k]);
      }
      return None;
    }

    // reply_slot_new()
    method New(s: Slot, quota: bool) returns (r: NewResult)
      requires Valid()
      modifies this
      ensures Valid()
      ensures r == Exists <==> Expects(old(slots), s.callee, s.id, s.serial)
      ensures r == Quota <==> !quota && !Expects(old(slots), s.callee, s.id, s.serial)
      ensures r == Created <==> slots == old(slots) + {s} && s !in old(slots) && log == old(log) + [Opened(s)]
      ensures r != Created ==> slots == old(slots) && log == old(log)
    {
      assert TreeHolds(TreeOf(trees, s.callee), slots, s.callee);
      if KeyOf(s) in TreeOf(trees, s.callee) {
        assert SameKey(TreeOf(trees, s.callee)[KeyOf(s)], Slot(s.callee, s.id, s.id, s.serial));
        return Exists;
      }
      assert !Expects(slots, s.callee, s.id, s.serial) && forall t :: t in slots ==> !SameKey(t, s);
      if !quota {
        return Quota;
      }
      TreesHoldMore(trees, slots, s);
      ListsHoldMore(lists, slots, s);
      LogAppend(log, Opened(s));
      hide TreesHold;
      hide ListsHold;
      trees := trees[s.callee := TreeOf(trees, s.callee)[KeyOf(s) := s]];
      lists := lists[s.owner := ListOf(lists, s.owner) + [s]];
      slots := slots + {s};
      log := log + [Opened(s)];
      return Created;
    }

    // reply_slot_free()
    method Free(s: Slot, ghost outcome: Outcome)
      requires Valid() && s in slots
      modifies this
      ensures Valid()
      ensures slots == old(slots) - {s} && log == old(log) + [Settled(s, outcome)]
    {
      TreesHoldLess(trees, slots, s);
      ListsHoldLess(lists, slots, s);
      LogAppend(log, Settled(s, outcome));
      hide TreesHold;
      hide ListsHold;
      lists := lists[s.owner := Without(ListOf(lists, s.owner), s)];
      trees := trees[s.callee := TreeOf(trees, s.callee) - {KeyOf(s)}];
      slots := slots - {s};
      log := log + [Settled(s, outcome)];
    }
  }
}
