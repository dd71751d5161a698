/**
 Well-known names and their queues of owners (src/bus/name.c).
 The functions say what RequestName and ReleaseName mean for one queue; the class keeps
 queues, owner trees and counters in step the way the source does.
 */
module Names {
  import opened Base
  import opened Counters

  datatype Flags = Flags(allowReplacement: bool, replaceExisting: bool, doNotQueue: bool)

  datatype Ownership = Ownership(owner: nat, flags: Flags)

  type Queue = seq<Ownership>

  // NameChange: filled exactly when the primary owner changed
  datatype NameChange = NameChange(name: string, oldOwner: Option<nat>, newOwner: Option<nat>)

  datatype RequestReply = PrimaryOwner | AlreadyOwner | InQueue | Exists | Quota

  datatype ReleaseReply = Released | NotFound | NotOwner

  // ---------------------------------------------------------------- one queue

  // name_primary()
  function Primary(q: Queue): Option<nat> {
    if q == [] then None else Some(q[0].owner)
  }

  predicate Queued(q: Queue, o: nat) {
    exists i :: 0 <= i < |q| && q[i].owner == o
  }

  // the queue without the entry of o
  function Others(q: Queue, o: nat): (r: Queue)
    ensures |r| <= |q|
    ensures forall i :: 0 <= i < |r| ==> r[i] in q && r[i].owner != o
  {
    if q == [] then []
    else if q[0].owner == o then Others(q[1..], o)
    else [q[0]] + Others(q[1..], o)
  }

  // the queue with the flags of o's entry replaced
  function Reflag(q: Queue, o: nat, f: Flags): (r: Queue)
    ensures |r| == |q|
    ensures forall i :: 0 <= i < |q| ==> r[i] == if q[i].owner == o then Ownership(o, f) else q[i]
  {
    seq(|q|, i requires 0 <= i < |q| => if q[i].owner == o then Ownership(o, f) else q[i])
  }

  predicate Replaces(q: Queue, f: Flags)
    requires q != []
  {
    f.replaceExisting && q[0].flags.allowReplacement
  }

  // What RequestName makes of a queue.
  function Enter(q: Queue, o: nat, f: Flags): Queue {
    if q == [] || q[0].owner == o then [Ownership(o, f)] + Others(q, o)
    else if Replaces(q, f) then
      [Ownership(o, f)] + Others(if q[0].flags.doNotQueue then q[1..] else q, o)
    else if f.doNotQueue then Others(q, o)
    else if Queued(q, o) then Reflag(q, o, f)
    else q + [Ownership(o, f)]
  }

  function RequestResult(q: Queue, o: nat, f: Flags): RequestReply {
    if q == [] then PrimaryOwner
    else if q[0].owner == o then AlreadyOwner
    else if Replaces(q, f) then PrimaryOwner
    else if f.doNotQueue then Exists
    else InQueue
  }

  // An owner stands in a queue at most once, and only the primary owner may have
  // asked not to be queued.
  ghost predicate Disciplined(q: Queue) {
    OneEntryEach(q) && (q == [] || Willing(q[1..]))
  }

  ghost predicate OneEntryEach(q: Queue) {
    forall i, j :: 0 <= i < j < |q| ==> q[i].owner != q[j].owner
  }

  ghost predicate Willing(q: Queue) {
    forall i :: 0 <= i < |q| ==> !q[i].flags.doNotQueue
  }

  lemma PrependDisciplined(e: Ownership, q: Queue)
    requires OneEntryEach(q) && Willing(q) && !Queued(q, e.owner)
    ensures Disciplined([e] + q)
  {
    assert ([e] + q)[1..] == q;
  }

  lemma {:induction false} OthersQueued(q: Queue, o: nat, x: nat)
    ensures Queued(Others(q, o), x) <==> Queued(q, x) && x != o
  {
    if q != [] {
      OthersQueued(q[1..], o, x);
      var t := Others(q[1..], o);
      assert Queued(q, x) <==> q[0].owner == x || Queued(q[1..], x) by {
        if Queued(q, x) && q[0].owner != x {
          var i :| 0 <= i < |q| && q[i].owner == x;
          assert q[1..][i - 1].owner == x;
        }
        if Queued(q[1..], x) {
          var i :| 0 <= i < |q[1..]| && q[1..][i].owner == x;
          assert q[i + 1].owner == x;
        }
      }
      if q[0].owner != o {
        var r := [q[0]] + t;
        assert Queued(r, x) <==> q[0].owner == x || Queued(t, x) by {
          if Queued(t, x) {
            var i :| 0 <= i < |t| && t[i].owner == x;
            assert r[i + 1].owner == x;
          }
          assert r[0] == q[0];
        }
      }
    }
  }

  lemma {:induction false} OthersOfOther(q: Queue, o: nat)
    requires !Queued(q, o)
    ensures Others(q, o) == q
  {
    if q != [] {
      assert q[0].owner != o;
      forall i | 0 <= i < |q[1..]| ensures q[1..][i].owner != o {
        assert q[i + 1].owner != o;
      }
      OthersOfOther(q[1..], o);
    }
  }

  lemma {:induction false} OthersOneEntryEach(q: Queue, o: nat)
    requires OneEntryEach(q)
    ensures OneEntryEach(Others(q, o)) && !Queued(Others(q, o), o)
    ensures Willing(q) ==> Willing(Others(q, o))
  {
    OthersQueued(q, o, o);
    if q != [] {
      OthersOneEntryEach(q[1..], o);
      assert forall x :: x in Others(q[1..], o) ==> x.owner != q[0].owner by {
        forall x | x in Others(q[1..], o) ensures x.owner != q[0].owner {
          assert x in q[1..];
        }
      }
    }
  }

  lemma OthersShape(q: Queue, o: nat)
    requires Disciplined(q) && q != []
    ensures Others(q, o) == if q[0].owner == o then q[1..] else [q[0]] + Others(q[1..], o)
    ensures OneEntryEach(Others(q[1..], o)) && Willing(Others(q[1..], o)) && !Queued(Others(q[1..], o), o)
    ensures q[0].owner != o ==> !Queued(Others(q[1..], o), q[0].owner)
  {
    assert !Queued(q[1..], q[0].owner);
    OthersOneEntryEach(q[1..], o);
    OthersQueued(q[1..], o, q[0].owner);
    if q[0].owner == o {
      OthersOfOther(q[1..], o);
    }
  }

  // RequestName keeps the discipline.
  lemma EnterDisciplined(q: Queue, o: nat, f: Flags)
    requires Disciplined(q)
    ensures Disciplined(Enter(q, o, f))
  {
    if q == [] {
      PrependDisciplined(Ownership(o, f), []);
    } else {
      OthersShape(q, o);
      LeaveDisciplined(q, o);
      if q[0].owner == o {
        PrependDisciplined(Ownership(o, f), q[1..]);
      } else if Replaces(q, f) {
        OthersOneEntryEach(q, o);
        if q[0].flags.doNotQueue {
          PrependDisciplined(Ownership(o, f), Others(q[1..], o));
        } else {
          assert Willing(q);
          PrependDisciplined(Ownership(o, f), Others(q, o));
        }
      } else if !f.doNotQueue {
        EnterBehindDisciplined(q, o, f);
      }
    }
  }

  lemma EnterBehindDisciplined(q: Queue, o: nat, f: Flags)
    requires Disciplined(q) && q != [] && q[0].owner != o && !f.doNotQueue
    ensures Disciplined(if Queued(q, o) then Reflag(q, o, f) else q + [Ownership(o, f)])
  {
    if Queued(q, o) {
      assert forall i :: 0 < i < |q| ==> q[i] == q[1..][i - 1];
    } else {
      assert (q + [Ownership(o, f)])[1..] == q[1..] + [Ownership(o, f)];
    }
  }

  // ReleaseName and disconnecting keep it as well.
  lemma LeaveDisciplined(q: Queue, o: nat)
    requires Disciplined(q)
    ensures Disciplined(Others(q, o))
  {
    if q != [] {
      OthersShape(q, o);
      if q[0].owner == o {
        OthersOneEntryEach(q, o);
        assert q[1..] == [] || q[1..][1..] == q[2..];
      } else {
        PrependDisciplined(q[0], Others(q[1..], o));
      }
    }
  }

  // The reply to RequestName tells where the caller now stands.
  lemma ReplyTellsPosition(q: Queue, o: nat, f: Flags)
    requires Disciplined(q)
    ensures var r, q' := RequestResult(q, o, f), Enter(q, o, f);
      && (r == PrimaryOwner <==> Primary(q) != Some(o) && Primary(q') == Some(o))
      && (r == AlreadyOwner <==> Primary(q) == Some(o))
      && (r == InQueue <==> Primary(q') != Some(o) && Queued(q', o))
      && (r == Exists <==> !Queued(q', o))
      && (Primary(q') != Primary(q) <==> r == PrimaryOwner)
  {
    var q' := Enter(q, o, f);
    OthersQueued(q, o, o);
    if q == [] || q[0].owner == o || Replaces(q, f) {
      assert q'[0].owner == o;
    } else if f.doNotQueue {
      assert q' == Others(q, o);
    } else if Queued(q, o) {
      var i :| 0 <= i < |q| && q[i].owner == o;
      assert q'[i].owner == o;
    } else {
      assert q'[|q|].owner == o;
    }
  }

  // An owner is replaced exactly if the caller asks for it and the owner has allowed it; the reply
  // depends on nothing but this, on who is primary owner, and on whether the caller would wait.
  lemma ReplyIff(q: Queue, o: nat, f: Flags)
    ensures var r := RequestResult(q, o, f);
      && (r == PrimaryOwner <==> q == [] || (q[0].owner != o && f.replaceExisting && q[0].flags.allowReplacement))
      && (r == AlreadyOwner <==> q != [] && q[0].owner == o)
      && (r == Exists <==>
            q != [] && q[0].owner != o && !(f.replaceExisting && q[0].flags.allowReplacement) && f.doNotQueue)
      && (r == InQueue <==>
            q != [] && q[0].owner != o && !(f.replaceExisting && q[0].flags.allowReplacement) && !f.doNotQueue)
  {
  }

  lemma TakesOverIff(q: Queue, o: nat, f: Flags)
    ensures Primary(Enter(q, o, f)) == Some(o) <==>
      q == [] || q[0].owner == o || (f.replaceExisting && q[0].flags.allowReplacement)
    ensures Primary(Enter(q, o, f)) == Some(o) || Primary(Enter(q, o, f)) == Primary(q)
    ensures RequestResult(q, o, f) == PrimaryOwner <==>
      q == [] || (q[0].owner != o && f.replaceExisting && q[0].flags.allowReplacement)
  {
  }

  // The caller's entry, if there is one afterwards, carries just the flags of the request. Nobody
  // else's flags change.
  lemma FlagsStored(q: Queue, o: nat, f: Flags)
    ensures forall e :: e in Enter(q, o, f) ==> if e.owner == o then e.flags == f else e in q
  {
    var q' := Enter(q, o, f);
    if Queued(q, o) {
      forall i | 0 <= i < |Reflag(q, o, f)| ensures Reflag(q, o, f)[i].owner != o ==> Reflag(q, o, f)[i] == q[i] {
      }
    }
    forall e | e in q' ensures if e.owner == o then e.flags == f else e in q {
      var i :| 0 <= i < |q'| && q'[i] == e;
      if e in q && e.owner == o && !Queued(q, o) {
        assert false;
      }
    }
  }

  // A release takes out the entry and closes the gap.
  lemma {:induction false} LeaveClosesGap(a: Queue, e: Ownership, b: Queue)
    requires !Queued(a, e.owner) && !Queued(b, e.owner)
    ensures Others(a + [e] + b, e.owner) == a + b
  {
    var q := a + [e] + b;
    if a == [] {
      assert q[0] == e && q[1..] == b && a + b == b;
      OthersOfOther(b, e.owner);
    } else {
      assert q[0] == a[0] && a[0].owner != e.owner && q[1..] == a[1..] + [e] + b;
      forall i | 0 <= i < |a[1..]| ensures a[1..][i].owner != e.owner {
        assert a[i + 1].owner != e.owner;
      }
      LeaveClosesGap(a[1..], e, b);
      assert a + b == [a[0]] + (a[1..] + b);
    }
  }

  // A new owner stands in front of the one it replaces, if that one waits on. Whoever has to wait
  // keeps its place, or comes last.
  lemma PlaceOfCaller(q: Queue, o: nat, f: Flags)
    ensures Primary(Enter(q, o, f)) == Some(o) ==> Enter(q, o, f)[0] == Ownership(o, f)
    ensures q != [] && q[0].owner != o && f.replaceExisting && q[0].flags.allowReplacement && !q[0].flags.doNotQueue ==>
      |Enter(q, o, f)| > 1 && Enter(q, o, f)[1] == q[0]
    ensures RequestResult(q, o, f) == InQueue && !Queued(q, o) ==> Enter(q, o, f) == q + [Ownership(o, f)]
    ensures RequestResult(q, o, f) == InQueue && Queued(q, o) ==>
      && |Enter(q, o, f)| == |q|
      && forall i :: 0 <= i < |q| ==> Enter(q, o, f)[i].owner == q[i].owner
  {
  }

  // RequestName touches nobody's place but the caller's, and drops at most a replaced
  // primary owner that had asked not to be queued.
  lemma EnterKeepsOthers(q: Queue, o: nat, f: Flags)
    requires Disciplined(q)
    ensures Others(Enter(q, o, f), o)
      == if q != [] && q[0].owner != o && f.replaceExisting && q[0].flags.allowReplacement && q[0].flags.doNotQueue
         then Others(q[1..], o) else Others(q, o)
  {
    OthersIdempotent(q, o);
    if q != [] {
      OthersIdempotent(q[1..], o);
    }
    if Queued(q, o) {
      OthersReflag(q, o, f);
    }
    OthersAppend(q, Ownership(o, f), o);
  }

  // who is queued afterwards
  lemma EnterQueued(q: Queue, o: nat, f: Flags, x: nat)
    requires Disciplined(q) && x != o
    ensures Queued(Enter(q, o, f), x) <==>
      && Queued(q, x)
      && !(q != [] && q[0].owner == x && f.replaceExisting && q[0].flags.allowReplacement && q[0].flags.doNotQueue)
  {
    OthersQueued(q, o, x);
    var e := Ownership(o, f);
    if q == [] || q[0].owner == o {
      ConsQueued(e, Others(q, o), x);
    } else if Replaces(q, f) {
      ConsQueued(e, Others(q, o), x);
      ConsQueued(e, Others(q[1..], o), x);
      OthersQueued(q[1..], o, x);
      assert q == [q[0]] + q[1..] && !Queued(q[1..], q[0].owner);
      ConsQueued(q[0], q[1..], x);
    } else if !f.doNotQueue {
      if Queued(q, x) {
        var i :| 0 <= i < |q| && q[i].owner == x;
        assert Enter(q, o, f)[i].owner == x;
      }
      if Queued(Enter(q, o, f), x) {
        var i :| 0 <= i < |Enter(q, o, f)| && Enter(q, o, f)[i].owner == x;
        assert q[i].owner == x;
      }
    }
  }

  lemma ConsQueued(e: Ownership, q: Queue, x: nat)
    ensures Queued([e] + q, x) <==> e.owner == x || Queued(q, x)
  {
    if Queued(q, x) {
      var i :| 0 <= i < |q| && q[i].owner == x;
      assert ([e] + q)[i + 1].owner == x;
    }
    assert ([e] + q)[0] == e;
  }

  // the single steps of name_ownership_update() add up to Enter
  lemma EnterInSteps(q: Queue, o: nat, f: Flags)
    requires Disciplined(q) && q != []
    ensures q[0].owner == o ==> Reflag(q, o, f) == Enter(q, o, f)
    ensures q[0].owner != o && Replaces(q, f) && q[0].flags.doNotQueue ==>
      Others([Ownership(o, f)] + Others(q, o), q[0].owner) == Enter(q, o, f)
  {
    if q[0].owner == o {
      ReflagIsEnter(q, o, f);
    } else if Replaces(q, f) && q[0].flags.doNotQueue {
      TakeoverIsEnter(q, o, f);
    }
  }

  lemma ReflagIsEnter(q: Queue, o: nat, f: Flags)
    requires Disciplined(q) && q != [] && q[0].owner == o
    ensures Reflag(q, o, f) == Enter(q, o, f)
  {
    OthersShape(q, o);
    forall i | 1 <= i < |q| ensures Reflag(q, o, f)[i] == q[1..][i - 1] {
    }
  }

  lemma TakeoverIsEnter(q: Queue, o: nat, f: Flags)
    requires q != [] && q[0].owner != o && Replaces(q, f) && q[0].flags.doNotQueue
    requires Disciplined(q)
    ensures Others([Ownership(o, f)] + Others(q, o), q[0].owner) == Enter(q, o, f)
  {
    OthersShape(q, o);
    hide Disciplined;
    var e, t := Ownership(o, f), Others(q[1..], o);
    OthersOfOther(t, q[0].owner);
    assert [e] + Others(q, o) == [e, q[0]] + t;
    assert ([e, q[0]] + t)[1..] == [q[0]] + t && ([q[0]] + t)[1..] == t;
  }

  lemma OthersIdempotent(q: Queue, o: nat)
    ensures Others(Others(q, o), o) == Others(q, o)
  {
    OthersQueued(q, o, o);
    OthersOfOther(Others(q, o), o);
  }

  lemma {:induction false} OthersReflag(q: Queue, o: nat, f: Flags)
    ensures Others(Reflag(q, o, f), o) == Others(q, o)
  {
    if q != [] {
      assert Reflag(q, o, f)[1..] == Reflag(q[1..], o, f);
      OthersReflag(q[1..], o, f);
    }
  }

  lemma {:induction false} OthersAppend(q: Queue, e: Ownership, o: nat)
    ensures Others(q + [e], o) == Others(q, o) + if e.owner == o then [] else [e]
  {
    if q != [] {
      assert (q + [e])[1..] == q[1..] + [e];
      OthersAppend(q[1..], e, o);
    }
  }

  // ---------------------------------------------------------------- all queues

  type Queues = map<string, Queue>

  function QueueOf(qs: Queues, n: string): Queue {
    if n in qs then qs[n] else []
  }

  // the primary owner of every name that has one
  function Primaries(qs: Queues): map<string, nat> {
    map n | n in qs && qs[n] != [] :: qs[n][0].owner
  }

  // NameChange: present exactly when the primary owner of n differs
  function ChangeOf(n: string, before: Queue, after: Queue): (c: Option<NameChange>)
    ensures c.Some? ==> c.value.name == n
  {
    if Primary(before) == Primary(after) then None
    else Some(NameChange(n, Primary(before), Primary(after)))
  }

  ghost predicate AllDisciplined(qs: Queues) {
    forall n :: Disciplined(QueueOf(qs, n))
  }

  lemma AllDisciplinedUpdate(qs: Queues, n: string, q: Queue)
    requires AllDisciplined(qs) && Disciplined(q)
    ensures AllDisciplined(qs[n := q])
  {
    var qs' := qs[n := q];
    forall m ensures Disciplined(QueueOf(qs', m)) {
      assert Disciplined(QueueOf(qs, m));
    }
  }

  lemma PrimariesUpdate(qs: Queues, n: string, q: Queue)
    ensures Primaries(qs[n := q])
         == if q == [] then Primaries(qs) - {n} else Primaries(qs)[n := q[0].owner]
    ensures n in Primaries(qs) <==> QueueOf(qs, n) != []
    ensures n in Primaries(qs) ==> Primaries(qs)[n] == QueueOf(qs, n)[0].owner
  {
  }

  function Lookup(owners: map<string, nat>, n: string): Option<nat> {
    if n in owners then Some(owners[n]) else None
  }

  // Applying a NameChange record to a map from names to primary owners. It must name the owner
  // that the map has, and another one; None stands for a record that does not.
  function Replay(owners: map<string, nat>, c: NameChange): Option<map<string, nat>> {
    if Lookup(owners, c.name) != c.oldOwner || c.oldOwner == c.newOwner then None
    else Some(if c.newOwner.Some? then owners[c.name := c.newOwner.value] else owners - {c.name})
  }

  // The record of one operation can be applied to the old primary owners, and turns them into
  // the new ones. Without a record they are the same.
  lemma ChangeReplays(qs: Queues, n: string, q: Queue)
    ensures var c := ChangeOf(n, QueueOf(qs, n), q);
      if c.Some? then Replay(Primaries(qs), c.value) == Some(Primaries(qs[n := q]))
      else Primaries(qs) == Primaries(qs[n := q])
  {
    PrimariesUpdate(qs, n, q);
  }

  // counters of primary ownerships after the head of one queue changed
  function Recount(c: Counters, before: Option<nat>, after: Option<nat>): Counters
    requires before.Some? && before != after ==> c.total > 0 && c.Of(before.value) > 0
  {
    if before == after then c
    else
      var dropped := if before.Some? then c.Drop(before.value) else c;
      if after.Some? then dropped.Add(after.value) else dropped
  }

  ghost predicate CountsPrimaries(c: Counters, qs: Queues) {
    c.Exact(Primaries(qs))
  }

  lemma RecountItems(c: Counters, items: map<string, nat>, n: string, after: Option<nat>)
    requires c.Exact(items)
    ensures n in items ==> c.total > 0 && c.Of(items[n]) > 0
    ensures Recount(c, Lookup(items, n), after).Exact(if after.Some? then items[n := after.value] else items - {n})
  {
    var rest := items - {n};
    if n in items {
      DropExact(c, items, n);
    } else {
      assert rest == items;
    }
    hide Counters.Exact;
    if Lookup(items, n) == after {
      assert (if after.Some? then items[n := after.value] else rest) == items;
    } else if after.Some? {
      assert rest[n := after.value] == items[n := after.value];
      AddExact(if n in items then c.Drop(items[n]) else c, rest, n, after.value);
    }
  }

  lemma RecountExact(c: Counters, qs: Queues, n: string, q: Queue)
    requires CountsPrimaries(c, qs)
    ensures Primary(QueueOf(qs, n)).Some? ==> c.total > 0 && c.Of(Primary(QueueOf(qs, n)).value) > 0
    ensures CountsPrimaries(Recount(c, Primary(QueueOf(qs, n)), Primary(q)), qs[n := q])
  {
    PrimariesUpdate(qs, n, q);
    hide Primaries;
    hide Recount;
    RecountItems(c, Primaries(qs), n, Primary(q));
    assert Lookup(Primaries(qs), n) == Primary(QueueOf(qs, n));
  }

  class NameRegistry {
    var queues: Queues                 // name->ownership_list
    var owned: map<nat, set<string>>   // owner->ownership_tree
    var counters: Counters             // primaries, globally and per owner

    function Owned(o: nat): set<string>
      reads this`owned
    {
      if o in owned then owned[o] else {}
    }

    // an ownership is in its owner's tree exactly if it is in its name's queue
    ghost predicate Matched(o: nat, n: string)
      reads this
    {
      n in Owned(o) <==> Queued(QueueOf(queues, n), o)
    }

    ghost predicate TreesMatchQueues()
      reads this
    {
      forall o, n :: Matched(o, n)
    }

    ghost predicate Valid()
      reads this
    {
      TreesMatchQueues() && AllDisciplined(queues) && CountsPrimaries(counters, queues)
    }

    constructor ()
      ensures Valid() && queues == map[] && owned == map[]
    {
      queues, owned, counters := map[], map[], ZERO;
    }

    lemma OwnedIffQueued(o: nat, n: string)
      requires Valid()
      ensures n in Owned(o) <==> Queued(QueueOf(queues, n), o)
      ensures n in Owned(o) ==> n in queues && queues[n] != []
    {
      assert Matched(o, n);
    }

    // name_ownership_free() of an ownership that is in no queue any more
    method FreeOwnership(o: nat, n: string)
      modifies this`owned
      ensures forall x :: Owned(x) == if x == o then old(Owned(x)) - {n} else old(Owned(x))
    {
      owned := owned[o := Owned(o) - {n}];
    }

    // name_registry_request_name(); quota tells whether a new ownership may be charged
    method Request(o: nat, n: string, f: Flags, quota: bool) returns (r: RequestReply, change: Option<NameChange>)
      requires Valid()
      modifies this
      ensures Valid()
      ensures r == Quota <==> !quota && n !in old(Owned(o))
      ensures r == Quota ==> queues == old(queues) && owned == old(owned) && change.None?
      ensures r != Quota ==>
        && queues == old(queues)[n := Enter(QueueOf(old(queues), n), o, f)]
        && r == RequestResult(QueueOf(old(queues), n), o, f)
        && change == ChangeOf(n, QueueOf(old(queues), n), QueueOf(queues, n))
      ensures var q := QueueOf(old(queues), n); r != Quota ==>
        && (Primary(QueueOf(queues, n)) == Some(o) <==>
              q == [] || q[0].owner == o || (f.replaceExisting && q[0].flags.allowReplacement))
        && (r == PrimaryOwner <==>
              q == [] || (q[0].owner != o && f.replaceExisting && q[0].flags.allowReplacement))
      ensures counters.totalPeak >= old(counters.totalPeak) && counters.ownerPeak >= old(counters.ownerPeak)
    {
      hide CountsPrimaries;
      assert Matched(o, n);
      assert Disciplined(QueueOf(queues, n));
      TakesOverIff(QueueOf(queues, n), o, f);
      EnterDisciplined(QueueOf(queues, n), o, f);
      AllDisciplinedUpdate(queues, n, Enter(QueueOf(queues, n), o, f));
      hide Disciplined;
      hide AllDisciplined;
      hide Enter;
      hide RequestResult;
      if n !in Owned(o) {
        if !quota {
          return Quota, None;
        }
        owned := owned[o := Owned(o) + {n}];
      }
      forall x | x != o ensures Matched(x, n) {
        assert old(Matched(x, n));
      }
      r, change := Update(o, n, f);
      label Updated:
      if !Queued(QueueOf(queues, n), o) {
        FreeOwnership(o, n);
      }
      forall x, m ensures Matched(x, m) {
        assert old(Matched(x, m));
        assert x != o ==> old@Updated(Matched(x, n));
      }
    }

    // name_ownership_update() of an ownership that is in its owner's tree
    method Update(o: nat, n: string, f: Flags) returns (r: RequestReply, change: Option<NameChange>)
      requires CountsPrimaries(counters, queues) && Disciplined(QueueOf(queues, n))
      requires forall x :: x != o ==> Matched(x, n)
      modifies this
      ensures CountsPrimaries(counters, queues)
      ensures forall x :: x != o ==> Matched(x, n)
      ensures forall x, m :: m != n || x == o ==> (m in Owned(x) <==> m in old(Owned(x)))
      ensures queues == old(queues)[n := Enter(QueueOf(old(queues), n), o, f)]
      ensures r == RequestResult(QueueOf(old(queues), n), o, f)
      ensures change == ChangeOf(n, QueueOf(old(queues), n), QueueOf(queues, n))
      ensures counters.totalPeak >= old(counters.totalPeak) && counters.ownerPeak >= old(counters.ownerPeak)
    {
      hide CountsPrimaries;
      hide Disciplined;
      var q := QueueOf(queues, n);
      ghost var q0 := q;
      RecountExact(counters, queues, n, Enter(q, o, f));
      change := None;
      if q == [] {
        change := Some(NameChange(n, None, Some(o)));
        q := [Ownership(o, f)];
        counters := counters.Add(o);
        r := PrimaryOwner;
        assert q == Enter(q0, o, f);
      } else if q[0].owner == o {
        EnterInSteps(q, o, f);
        q := Reflag(q, o, f);
        r := AlreadyOwner;
      } else if f.replaceExisting && q[0].flags.allowReplacement {
        EnterInSteps(q, o, f);
        var primary := q[0];
        change := Some(NameChange(n, Some(primary.owner), Some(o)));
        counters := counters.Drop(primary.owner).Add(o);
        q := [Ownership(o, f)] + Others(q, o);
        if primary.flags.doNotQueue {
          q := Others(q, primary.owner);
          FreeOwnership(primary.owner, n);
        }
        r := PrimaryOwner;
        assert q == Enter(q0, o, f);
      } else if !f.doNotQueue {
        q := if Queued(q, o) then Reflag(q, o, f) else q + [Ownership(o, f)];
        r := InQueue;
      } else {
        q := Others(q, o);
        r := Exists;
      }
      assert q == Enter(q0, o, f);
      queues := queues[n := q];
      ghost var dropped := q0 != [] && q0[0].owner != o && Replaces(q0, f) && q0[0].flags.doNotQueue;
      assert forall x :: Owned(x) == if dropped && x == q0[0].owner then old(Owned(x)) - {n} else old(Owned(x));
      hide Enter;
      hide Queued;
      hide Replaces;
      forall x | x != o ensures Matched(x, n) {
        assert old(Matched(x, n));
        EnterQueued(q0, o, f, x);
      }
    }

    // name_ownership_release()
    method ReleaseOwnership(o: nat, n: string) returns (change: Option<NameChange>)
      requires Valid() && n in Owned(o)
      modifies this
      ensures Valid()
      ensures queues == old(queues)[n := Others(QueueOf(old(queues), n), o)]
      ensures Owned(o) == old(Owned(o)) - {n}
      ensures change == ChangeOf(n, QueueOf(old(queues), n), QueueOf(queues, n))
      ensures counters.totalPeak >= old(counters.totalPeak) && counters.ownerPeak >= old(counters.ownerPeak)
    {
      forall x, m ensures StillMatched(o, n, x, m) {
        assert Matched(x, m);
        OthersQueued(QueueOf(queues, n), o, x);
      }
      hide Others;
      hide CountsPrimaries;
      hide AllDisciplined;
      change := LeaveQueue(o, n);
      FreeOwnership(o, n);
      forall x, m ensures Matched(x, m) {
        assert old(StillMatched(o, n, x, m));
      }
    }

    // the queue without the entry, and the count of primary owners
    method LeaveQueue(o: nat, n: string) returns (change: Option<NameChange>)
      requires Valid() && n in Owned(o)
      modifies this`queues, this`counters
      ensures CountsPrimaries(counters, queues) && AllDisciplined(queues)
      ensures queues == old(queues)[n := Others(QueueOf(old(queues), n), o)]
      ensures change == ChangeOf(n, QueueOf(old(queues), n), QueueOf(queues, n))
      ensures counters.totalPeak >= old(counters.totalPeak) && counters.ownerPeak >= old(counters.ownerPeak)
    {
      hide CountsPrimaries;
      var q := QueueOf(queues, n);
      RecountExact(counters, queues, n, Others(q, o));
      assert Matched(o, n) && Disciplined(q);
      LeaveDisciplined(q, o);
      OthersShape(q, o);
      AllDisciplinedUpdate(queues, n, Others(q, o));
      hide AllDisciplined;
      hide Disciplined;
      var primary := Primary(q);
      q := Others(q, o);
      change := None;
      if primary == Some(o) {
        counters := counters.Drop(o);
        change := Some(NameChange(n, Some(o), Primary(q)));
        if q != [] {
          counters := counters.Add(q[0].owner);
        }
      }
      queues := queues[n := q];
    }

    // the ownership of x in m, after that of o in n has gone
    ghost predicate StillMatched(o: nat, n: string, x: nat, m: string)
      reads this
    {
      (m in Owned(x) && !(x == o && m == n)) <==>
        Queued(if m == n then Others(QueueOf(queues, n), o) else QueueOf(queues, m), x)
    }

    // name_registry_release_name()
    method Release(o: nat, n: string) returns (r: ReleaseReply, change: Option<NameChange>)
      requires Valid()
      modifies this
      ensures Valid()
      ensures r == NotFound <==> QueueOf(old(queues), n) == []
      ensures r == Released <==> Queued(QueueOf(old(queues), n), o)
      ensures r == Released ==> queues == old(queues)[n := Others(QueueOf(old(queues), n), o)]
      ensures r != Released ==> queues == old(queues) && owned == old(owned)
      ensures change == ChangeOf(n, QueueOf(old(queues), n), QueueOf(queues, n))
      ensures counters.totalPeak >= old(counters.totalPeak) && counters.ownerPeak >= old(counters.ownerPeak)
    {
      assert Matched(o, n);
      if QueueOf(queues, n) == [] {
        return NotFound, None;
      }
      if n !in Owned(o) {
        return NotOwner, None;
      }
      change := ReleaseOwnership(o, n);
      r := Released;
    }
  }
}
