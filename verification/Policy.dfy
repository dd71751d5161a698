/**
 Policy verdicts (src/bus/policy.c): every check goes through rules that apply and keeps the
 verdict of the highest priority so far. Rules about owning names are found by walking a search
 tree once for every dotted prefix of the name.
 */
module Policy {
  import opened Base

  datatype Verdict = Verdict(allow: bool, priority: nat)

  // POLICY_VERDICT_INIT
  const DENY := Verdict(false, 0)

  function Stronger(v: Verdict, c: Verdict): Verdict {
    if v.priority < c.priority then c else v
  }

  // a running verdict
  function Fold(v: Verdict, candidates: seq<Verdict>): Verdict {
    if candidates == [] then v
    else Stronger(Fold(v, candidates[..|candidates| - 1]), candidates[|candidates| - 1])
  }

  lemma {:induction false} FoldConcat(v: Verdict, a: seq<Verdict>, b: seq<Verdict>)
    ensures Fold(v, a + b) == Fold(Fold(v, a), b)
  {
    if b == [] {
      assert a + b == a;
    } else {
      FoldConcat(v, a, b[..|b| - 1]);
      assert (a + b)[..|a + b| - 1] == a + b[..|b| - 1];
    }
  }

  lemma FoldOne(v: Verdict, c: Verdict)
    ensures Fold(v, [c]) == Stronger(v, c) && Fold(v, []) == v
  {
    assert [c][..0] == [];
  }

  // Candidate i has the highest priority, and is the first one to have it.
  predicate Best(candidates: seq<Verdict>, i: nat) {
    && i < |candidates| && candidates[i].priority > 0
    && forall j :: 0 <= j < |candidates| ==>
         candidates[j].priority <= candidates[i].priority && (j < i ==> candidates[j].priority < candidates[i].priority)
  }

  predicate NoneCounts(candidates: seq<Verdict>) {
    forall i :: 0 <= i < |candidates| ==> candidates[i].priority == 0
  }

  // The outcome is the first candidate of the highest priority; it is a denial if no candidate
  // has a positive priority.
  lemma {:induction false} FoldIsBest(candidates: seq<Verdict>)
    ensures NoneCounts(candidates) ==> Fold(DENY, candidates) == DENY
    ensures !NoneCounts(candidates) ==> exists i: nat :: Best(candidates, i) && Fold(DENY, candidates) == candidates[i]
  {
    if candidates != [] {
      var n := |candidates| - 1;
      var front, last := candidates[..n], candidates[n];
      FoldIsBest(front);
      if NoneCounts(front) {
        assert forall j :: 0 <= j < n ==> candidates[j] == front[j];
        assert last.priority > 0 ==> Best(candidates, n);
      } else {
        var i: nat :| Best(front, i) && Fold(DENY, front) == front[i];
        BestMore(front, last, i);
        assert front + [last] == candidates;
      }
    }
  }

  lemma BestMore(front: seq<Verdict>, last: Verdict, i: nat)
    requires Best(front, i)
    ensures !NoneCounts(front + [last])
    ensures Best(front + [last], if front[i].priority < last.priority then |front| else i)
  {
    var candidates := front + [last];
    assert candidates[i] == front[i];
    forall j | 0 <= j < |front| ensures candidates[j] == front[j] {
    }
  }

  predicate Top(candidates: seq<Verdict>, c: Verdict) {
    c in candidates && c.priority > 0 && forall d :: d in candidates ==> d.priority <= c.priority
  }

  // the same rules in another order
  ghost predicate Reordered(a: seq<Verdict>, b: seq<Verdict>) {
    multiset(a) == multiset(b)
  }

  ghost predicate OrderIrrelevant(candidates: seq<Verdict>) {
    forall other :: Reordered(candidates, other) ==> Fold(DENY, other) == Fold(DENY, candidates)
  }

  // The order of the rules makes no difference exactly if no two rules of the highest priority
  // disagree; so it never does when priorities are distinct.
  lemma OrderIrrelevantIff(candidates: seq<Verdict>)
    ensures OrderIrrelevant(candidates) <==>
      forall c, d :: Top(candidates, c) && Top(candidates, d) ==> c.allow == d.allow
  {
    if forall c, d :: Top(candidates, c) && Top(candidates, d) ==> c.allow == d.allow {
      forall other | Reordered(candidates, other) ensures Fold(DENY, other) == Fold(DENY, candidates) {
        SameMembers(candidates, other);
        FoldIsBest(candidates);
        FoldIsBest(other);
        assert Top(candidates, Fold(DENY, candidates)) || Fold(DENY, candidates) == DENY;
        assert Top(candidates, Fold(DENY, other)) || Fold(DENY, other) == DENY;
      }
    } else {
      var c, d :| Top(candidates, c) && Top(candidates, d) && c.allow != d.allow;
      var late := if Fold(DENY, candidates) == c then d else c;
      var other := Earlier(candidates, late);
      assert !OrderIrrelevant(candidates);
    }
  }

  lemma SameMembers(a: seq<Verdict>, b: seq<Verdict>)
    requires Reordered(a, b)
    ensures forall c :: c in a <==> c in b
  {
    assert forall c :: c in a <==> c in multiset(a);
    assert forall c :: c in b <==> c in multiset(b);
  }

  // A rule of the highest priority decides when it comes first.
  lemma Earlier(candidates: seq<Verdict>, c: Verdict) returns (other: seq<Verdict>)
    requires Top(candidates, c)
    ensures Reordered(candidates, other) && Fold(DENY, other) == c
  {
    var i :| 0 <= i < |candidates| && candidates[i] == c;
    other := [c] + candidates[..i] + candidates[i + 1..];
    assert candidates == candidates[..i] + [c] + candidates[i + 1..];
    SameMembers(candidates, other);
    FoldIsBest(other);
    assert other[0] == c;
  }

  // ---------------------------------------------------------------- sending and receiving

  datatype Broadcasts = Any | Only | Never

  // struct PolicyXmit; empty strings count as absent
  datatype Xmit = Xmit(
    verdict: Verdict,
    msgType: nat,
    broadcast: Broadcasts,
    path: Option<string>,
    iface: Option<string>,
    member: Option<string>,
    minFds: nat,
    maxFds: nat)

  datatype Transfer = Transfer(
    msgType: nat,
    broadcast: bool,
    path: Option<string>,
    iface: Option<string>,
    member: Option<string>,
    nFds: nat)

  // Every condition of the rule holds of the message.
  predicate Applies(x: Xmit, t: Transfer) {
    && (x.msgType == 0 || x.msgType == t.msgType)
    && (x.path.None? || x.path == t.path)
    && (x.iface.None? || x.iface == t.iface)
    && (x.member.None? || x.member == t.member)
    && (x.broadcast == Only ==> t.broadcast) && (x.broadcast == Never ==> !t.broadcast)
    && x.minFds <= t.nFds <= x.maxFds
  }

  // A rule applies unless a condition it carries fails: type 0 and absent strings ask nothing.
  lemma AppliesIff(x: Xmit, t: Transfer)
    ensures Applies(x, t) <==>
      && (x.msgType != 0 ==> t.msgType == x.msgType)
      && (x.path.Some? ==> t.path == x.path) && (x.iface.Some? ==> t.iface == x.iface)
      && (x.member.Some? ==> t.member == x.member)
      && (x.broadcast == Only ==> t.broadcast) && (x.broadcast == Never ==> !t.broadcast)
      && t.nFds >= x.minFds && t.nFds <= x.maxFds
  {
  }

  function Applicable(xs: seq<Xmit>, t: Transfer): seq<Verdict> {
    if xs == [] then []
    else
      var last := xs[|xs| - 1];
      Applicable(xs[..|xs| - 1], t) + if Applies(last, t) then [last.verdict] else []
  }

  lemma {:induction false} ApplicableMembers(xs: seq<Xmit>, t: Transfer, c: Verdict)
    ensures c in Applicable(xs, t) <==> exists x :: x in xs && Applies(x, t) && x.verdict == c
  {
    if xs != [] {
      ApplicableMembers(xs[..|xs| - 1], t, c);
      assert xs == xs[..|xs| - 1] + [xs[|xs| - 1]];
    }
  }

  datatype Entry = Entry(own: Verdict, ownPrefix: Verdict, send: seq<Xmit>, recv: seq<Xmit>)

  const NO_ENTRY := Entry(DENY, DENY, [], [])

  type Names = map<string, Entry>

  function RulesFor(names: Names, isSend: bool, name: string): seq<Xmit> {
    if name !in names then [] else if isSend then names[name].send else names[name].recv
  }

  // one rule: it is skipped if it cannot win or one of its conditions fails
  method Consider(x: Xmit, verdict: Verdict, t: Transfer) returns (v: Verdict)
    ensures v == if Applies(x, t) then Stronger(verdict, x.verdict) else verdict
  {
    if verdict.priority >= x.verdict.priority {
      return verdict;
    }
    if x.msgType != 0 && t.msgType != x.msgType {
      return verdict;
    }
    if x.path.Some? && t.path != x.path {
      return verdict;
    }
    if x.iface.Some? && t.iface != x.iface {
      return verdict;
    }
    if x.member.Some? && t.member != x.member {
      return verdict;
    }
    if (x.broadcast == Only && !t.broadcast) || (x.broadcast == Never && t.broadcast) {
      return verdict;
    }
    if x.minFds > t.nFds || x.maxFds < t.nFds {
      return verdict;
    }
    return x.verdict;
  }

  // policy_snapshot_check_xmit_name()
  method CheckXmitName(names: Names, isSend: bool, verdict: Verdict, name: string, t: Transfer) returns (v: Verdict)
    ensures v == Fold(verdict, Applicable(RulesFor(names, isSend, name), t))
  {
    v := verdict;
    if name !in names {
      return;
    }
    var list := if isSend then names[name].send else names[name].recv;
    for i := 0 to |list|
      invariant v == Fold(verdict, Applicable(list[..i], t))
    {
      ApplicableMore(verdict, list, i, t);
      v := Consider(list[i], v, t);
    }
    assert list[..|list|] == list;
  }

  lemma ApplicableMore(v: Verdict, xs: seq<Xmit>, i: nat, t: Transfer)
    requires i < |xs|
    ensures Fold(v, Applicable(xs[..i + 1], t)) ==
      var w := Fold(v, Applicable(xs[..i], t));
      if Applies(xs[i], t) then Stronger(w, xs[i].verdict) else w
  {
    assert xs[..i + 1][..i] == xs[..i];
    FoldConcat(v, Applicable(xs[..i], t), [xs[i].verdict]);
    FoldOne(Fold(v, Applicable(xs[..i], t)), xs[i].verdict);
    assert Applicable(xs[..i], t) + [] == Applicable(xs[..i], t);
  }

  const DRIVER_NAME := "org.freedesktop.DBus"

  // the names that a rule may be about: those of the subject, or the driver's
  datatype NameSet = Driver | Empty | Named(names: seq<string>)

  function Subjects(s: NameSet): seq<string> {
    match s
    case Driver => [DRIVER_NAME]
    case Empty => []
    case Named(names) => names
  }

  function Candidates(names: Names, isSend: bool, subjects: seq<string>, t: Transfer): seq<Verdict> {
    if subjects == [] then []
    else
      Candidates(names, isSend, subjects[..|subjects| - 1], t)
      + Applicable(RulesFor(names, isSend, subjects[|subjects| - 1]), t)
  }

  // rules about all names come first
  function BatchCandidates(names: Names, isSend: bool, s: NameSet, t: Transfer): seq<Verdict> {
    Applicable(RulesFor(names, isSend, ""), t) + Candidates(names, isSend, Subjects(s), t)
  }

  // the loop over the names of a subject
  method CheckXmitNames(names: Names, isSend: bool, verdict: Verdict, subjects: seq<string>, t: Transfer)
    returns (v: Verdict)
    ensures v == Fold(verdict, Candidates(names, isSend, subjects, t))
  {
    v := verdict;
    for i := 0 to |subjects|
      invariant v == Fold(verdict, Candidates(names, isSend, subjects[..i], t))
    {
      CandidatesMore(names, isSend, subjects, i, t);
      FoldConcat(verdict, Candidates(names, isSend, subjects[..i], t),
        Applicable(RulesFor(names, isSend, subjects[i]), t));
      v := CheckXmitName(names, isSend, v, subjects[i], t);
    }
    assert subjects[..|subjects|] == subjects;
  }

  lemma CandidatesMore(names: Names, isSend: bool, subjects: seq<string>, i: nat, t: Transfer)
    requires i < |subjects|
    ensures Candidates(names, isSend, subjects[..i + 1], t)
         == Candidates(names, isSend, subjects[..i], t) + Applicable(RulesFor(names, isSend, subjects[i]), t)
  {
    assert subjects[..i + 1][..i] == subjects[..i];
  }

  lemma CandidatesOne(names: Names, isSend: bool, name: string, t: Transfer)
    ensures Candidates(names, isSend, [name], t) == Applicable(RulesFor(names, isSend, name), t)
    ensures Candidates(names, isSend, [], t) == []
  {
    CandidatesMore(names, isSend, [name], 0, t);
    assert [name][..1] == [name] && [name][..0] == [];
    assert [] + Applicable(RulesFor(names, isSend, name), t) == Applicable(RulesFor(names, isSend, name), t);
  }

  // policy_snapshot_check_xmit()
  method CheckXmit(names: Names, isSend: bool, verdict: Verdict, s: NameSet, t: Transfer) returns (v: Verdict)
    ensures v == Fold(verdict, BatchCandidates(names, isSend, s, t))
  {
    FoldConcat(verdict, Applicable(RulesFor(names, isSend, ""), t), Candidates(names, isSend, Subjects(s), t));
    CandidatesOne(names, isSend, DRIVER_NAME, t);
    hide Fold;
    hide Candidates;
    hide Applicable;
    v := CheckXmitName(names, isSend, verdict, "", t);
    FoldOne(v, DENY);
    match s
    case Driver =>
      v := CheckXmitName(names, isSend, v, DRIVER_NAME, t);
    case Empty =>
    case Named(list) =>
      v := CheckXmitNames(names, isSend, v, list, t);
  }

  function AllCandidates(batches: seq<Names>, isSend: bool, s: NameSet, t: Transfer): seq<Verdict> {
    if batches == [] then []
    else AllCandidates(batches[..|batches| - 1], isSend, s, t) + BatchCandidates(batches[|batches| - 1], isSend, s, t)
  }

  // policy_snapshot_check_send() and policy_snapshot_check_receive(): the first rule of the
  // highest priority decides; without one, access is denied
  method CheckTransfer(batches: seq<Names>, isSend: bool, s: NameSet, t: Transfer) returns (allowed: bool)
    ensures var all := AllCandidates(batches, isSend, s, t);
      if NoneCounts(all) then !allowed else exists i: nat :: Best(all, i) && allowed == all[i].allow
  {
    var v := DENY;
    for i := 0 to |batches|
      invariant v == Fold(DENY, AllCandidates(batches[..i], isSend, s, t))
    {
      assert batches[..i + 1][..i] == batches[..i];
      FoldConcat(DENY, AllCandidates(batches[..i], isSend, s, t), BatchCandidates(batches[i], isSend, s, t));
      v := CheckXmit(batches[i], isSend, v, s, t);
    }
    assert batches[..|batches|] == batches;
    FoldIsBest(AllCandidates(batches, isSend, s, t));
    allowed := v.allow;
  }

  // policy_snapshot_check_connect(), over the connect verdict of each batch
  method CheckConnect(verdicts: seq<Verdict>) returns (allowed: bool)
    ensures if NoneCounts(verdicts) then !allowed
      else exists i: nat :: Best(verdicts, i) && allowed == verdicts[i].allow
  {
    var v := DENY;
    for i := 0 to |verdicts|
      invariant v == Fold(DENY, verdicts[..i])
    {
      assert verdicts[..i + 1][..i] == verdicts[..i];
      if v.priority < verdicts[i].priority {
        v := verdicts[i];
      }
    }
    assert verdicts[..|verdicts|] == verdicts;
    FoldIsBest(verdicts);
    allowed := v.allow;
  }

  // The candidates are the verdicts of all rules that apply, about any name or one of the subject's.
  lemma {:induction false} CandidatesMembers(names: Names, isSend: bool, subjects: seq<string>, t: Transfer, c: Verdict)
    ensures c in Candidates(names, isSend, subjects, t) <==>
      exists n :: n in subjects && c in Applicable(RulesFor(names, isSend, n), t)
  {
    if subjects != [] {
      CandidatesMembers(names, isSend, subjects[..|subjects| - 1], t, c);
      assert subjects == subjects[..|subjects| - 1] + [subjects[|subjects| - 1]];
    }
  }

  // the names that rules are looked up for: the catch-all, and those of the subject or the driver
  predicate IsSubject(s: NameSet, n: string) {
    n == "" || n in Subjects(s)
  }

  // What decides about a transfer: the verdicts of the rules for sending (or receiving) that the batches
  // have about such a name, as far as they apply.
  lemma CandidateIff(batches: seq<Names>, isSend: bool, s: NameSet, t: Transfer, c: Verdict)
    ensures c in AllCandidates(batches, isSend, s, t) <==>
      exists b, n, x :: b in batches && Decides(b, isSend, s, t, n, x) && x.verdict == c
  {
    hide AllCandidates;
    AllCandidatesMembers(batches, isSend, s, t, c);
    forall b: Names, n: string, x: Xmit
      ensures Decides(b, isSend, s, t, n, x) <==> IsSubject(s, n) && x in RulesFor(b, isSend, n) && Applies(x, t) {
      AppliesIff(x, t);
    }
    hide *;
  }

  // rule x about name n decides
  predicate Decides(b: Names, isSend: bool, s: NameSet, t: Transfer, n: string, x: Xmit) {
    && n in b && x in (if isSend then b[n].send else b[n].recv)
    && (n == "" || match s
                   case Driver => n == "org.freedesktop.DBus"
                   case Empty => false
                   case Named(names) => n in names)
    && (x.msgType != 0 ==> t.msgType == x.msgType)
    && (x.path.Some? ==> t.path == x.path) && (x.iface.Some? ==> t.iface == x.iface)
    && (x.member.Some? ==> t.member == x.member)
    && (x.broadcast == Only ==> t.broadcast) && (x.broadcast == Never ==> !t.broadcast)
    && t.nFds >= x.minFds && t.nFds <= x.maxFds
  }

  lemma {:induction false} AllCandidatesMembers(batches: seq<Names>, isSend: bool, s: NameSet, t: Transfer, c: Verdict)
    ensures c in AllCandidates(batches, isSend, s, t) <==>
      exists b, n, x :: b in batches && IsSubject(s, n) && x in RulesFor(b, isSend, n) &&
        Applies(x, t) && x.verdict == c
  {
    if batches != [] {
      var last := batches[|batches| - 1];
      AllCandidatesMembers(batches[..|batches| - 1], isSend, s, t, c);
      assert batches == batches[..|batches| - 1] + [last];
      CandidatesMembers(last, isSend, Subjects(s), t, c);
      forall n ensures c in Applicable(RulesFor(last, isSend, n), t) <==>
        exists x :: x in RulesFor(last, isSend, n) && Applies(x, t) && x.verdict == c {
        ApplicableMembers(RulesFor(last, isSend, n), t, c);
      }
    }
  }

  // ---------------------------------------------------------------- owning names

  // the tree of a batch, ordered by strcmp()
  datatype Tree = Leaf | Node(left: Tree, name: string, entry: Entry, right: Tree)

  function Contents(t: Tree): Names {
    match t
    case Leaf => map[]
    case Node(left, name, entry, right) => (Contents(left) + Contents(right))[name := entry]
  }

  predicate Sorted(t: Tree) {
    match t
    case Leaf => true
    case Node(left, name, _, right) =>
      && Sorted(left) && Sorted(right)
      && (forall n :: n in Contents(left) ==> StringCompare(n, name) < 0)
      && (forall n :: n in Contents(right) ==> StringCompare(n, name) > 0)
  }

  // strncmp(s, name, n), where s has at least n characters
  function PrefixCompare(s: string, name: string, n: nat): int
    requires n <= |s|
  {
    if n == 0 then 0
    else if name == "" then 1
    else if s[0] != name[0] then CharCompare(s[0], name[0])
    else PrefixCompare(s[1..], name[1..], n - 1)
  }

  // what the walk concludes from it
  lemma {:induction false} PrefixDecides(s: string, name: string, n: nat)
    requires n <= |s|
    ensures var v, p := PrefixCompare(s, name, n), s[..n];
      && (v < 0 ==> StringCompare(p, name) < 0)
      && (v > 0 ==> StringCompare(p, name) > 0)
      && (v == 0 ==> n <= |name| && (if n < |name| then StringCompare(p, name) < 0 else p == name))
  {
    if n > 0 && name != "" && s[0] == name[0] {
      PrefixDecides(s[1..], name[1..], n - 1);
      assert s[..n][1..] == s[1..][..n - 1] && s[..n] == [s[0]] + s[1..][..n - 1];
      assert name == [name[0]] + name[1..];
    }
  }

  function EntryFor(names: Names, name: string): Option<Entry> {
    if name in names then Some(names[name]) else None
  }

  // The walk for the first n characters of s finds an entry exactly if one is stored for them.
  method Descend(t: Tree, s: string, n: nat) returns (r: Option<Entry>)
    requires Sorted(t) && n <= |s|
    ensures r == EntryFor(Contents(t), s[..n])
  {
    var rb := t;
    ghost var p := s[..n];
    while rb.Node?
      invariant Sorted(rb) && EntryFor(Contents(t), p) == EntryFor(Contents(rb), p)
      decreases rb
    {
      var v := PrefixCompare(s, rb.name, n);
      PrefixDecides(s, rb.name, n);
      SideOf(rb, p);
      if v < 0 {
        rb := rb.left;
      } else if v > 0 {
        rb := rb.right;
      } else if |rb.name| > n {
        rb := rb.left;
      } else {
        return Some(rb.entry);
      }
    }
    return None;
  }

  lemma SideOf(t: Tree, p: string)
    requires t.Node? && Sorted(t)
    ensures StringCompare(p, t.name) < 0 ==> EntryFor(Contents(t), p) == EntryFor(Contents(t.left), p)
    ensures StringCompare(p, t.name) > 0 ==> EntryFor(Contents(t), p) == EntryFor(Contents(t.right), p)
    ensures p == t.name ==> EntryFor(Contents(t), p) == Some(t.entry)
  {
    OptionCompareTotalOrder();
    assert OptionCompare(Some(p), Some(t.name)) == 0 <==> p == t.name;
    LexTies(CharCompare, p, t.name);
  }

  // strchrnul(end + 1, '.')
  function NextEnd(s: string, i: nat): (e: nat)
    requires i <= |s|
    ensures i <= e <= |s| && (e == |s| || s[e] == '.') && forall j :: i <= j < e ==> s[j] != '.'
    decreases |s| - i
  {
    if i == |s| || s[i] == '.' then i else NextEnd(s, i + 1)
  }

  // the ends of the prefixes from e on
  function Ends(s: string, e: nat): seq<nat>
    requires e <= |s|
    decreases |s| - e
  {
    [e] + if e == |s| then [] else Ends(s, NextEnd(s, e + 1))
  }

  // a prefix that ends in front of a dot, the empty one, or the whole name
  predicate DottedEnd(s: string, n: nat) {
    n == 0 || n == |s| || (n < |s| && s[n] == '.')
  }

  lemma {:induction false} EndsAreDotted(s: string, e: nat, n: nat)
    requires e <= |s| && DottedEnd(s, e)
    ensures n in Ends(s, e) <==> e <= n && DottedEnd(s, n)
    decreases |s| - e
  {
    if e < |s| {
      EndsAreDotted(s, NextEnd(s, e + 1), n);
    }
  }

  function OwnRules(names: Names, name: string): seq<Verdict> {
    if name in names then [names[name].own, names[name].ownPrefix] else []
  }

  function OwnCandidates(names: Names, s: string, e: nat): seq<Verdict>
    requires e <= |s|
    decreases |s| - e
  {
    OwnRules(names, s[..e]) + if e == |s| then [] else OwnCandidates(names, s, NextEnd(s, e + 1))
  }

  // the loop over the prefixes of a name
  method CheckOwnBatch(t: Tree, verdict: Verdict, s: string) returns (v: Verdict)
    requires Sorted(t)
    ensures v == Fold(verdict, OwnCandidates(Contents(t), s, 0))
  {
    v := verdict;
    var end: nat := 0;
    ghost var names, done: seq<Verdict> := Contents(t), [];
    FoldOne(verdict, DENY);
    assert done + OwnCandidates(names, s, 0) == OwnCandidates(names, s, 0);
    hide Contents;
    hide Fold;
    while true
      invariant end <= |s| && v == Fold(verdict, done)
      invariant done + OwnCandidates(names, s, end) == OwnCandidates(names, s, 0)
      decreases |s| - end
    {
      var found := Descend(t, s, end);
      ghost var rules := OwnRules(names, s[..end]);
      FoldConcat(verdict, done, rules);
      v := ConsiderOwn(v, found);
      if end == |s| {
        assert rules + [] == rules;
        return;
      }
      ConcatAssociates(done, rules, OwnCandidates(names, s, NextEnd(s, end + 1)));
      done := done + rules;
      end := NextEnd(s, end + 1);
    }
  }

  method ConsiderOwn(verdict: Verdict, found: Option<Entry>) returns (v: Verdict)
    ensures v == Fold(verdict, if found.None? then [] else [found.value.own, found.value.ownPrefix])
  {
    v := verdict;
    if found.Some? {
      var e := found.value;
      FoldConcat(verdict, [e.own], [e.ownPrefix]);
      FoldOne(verdict, e.own);
      FoldOne(Stronger(verdict, e.own), e.ownPrefix);
      assert [e.own] + [e.ownPrefix] == [e.own, e.ownPrefix];
      if v.priority < e.own.priority {
        v := e.own;
      }
      if v.priority < e.ownPrefix.priority {
        v := e.ownPrefix;
      }
    }
  }

  function AllOwnCandidates(batches: seq<Tree>, s: string): seq<Verdict> {
    if batches == [] then []
    else AllOwnCandidates(batches[..|batches| - 1], s) + OwnCandidates(Contents(batches[|batches| - 1]), s, 0)
  }

  // the lookup of policy_snapshot_check_own()
  method CheckOwn(batches: seq<Tree>, s: string) returns (allowed: bool)
    requires forall b :: b in batches ==> Sorted(b)
    ensures var all := AllOwnCandidates(batches, s);
      if NoneCounts(all) then !allowed else exists i: nat :: Best(all, i) && allowed == all[i].allow
  {
    var v := DENY;
    for i := 0 to |batches|
      invariant v == Fold(DENY, AllOwnCandidates(batches[..i], s))
    {
      assert batches[..i + 1][..i] == batches[..i];
      FoldConcat(DENY, AllOwnCandidates(batches[..i], s), OwnCandidates(Contents(batches[i]), s, 0));
      v := CheckOwnBatch(batches[i], v, s);
    }
    assert batches[..|batches|] == batches;
    FoldIsBest(AllOwnCandidates(batches, s));
    allowed := v.allow;
  }

  lemma {:induction false} OwnCandidatesMembers(names: Names, s: string, e: nat, c: Verdict)
    requires e <= |s|
    ensures c in OwnCandidates(names, s, e) <==> exists n :: n in Ends(s, e) && n <= |s| && c in OwnRules(names, s[..n])
    decreases |s| - e
  {
    if e < |s| {
      OwnCandidatesMembers(names, s, NextEnd(s, e + 1), c);
    }
    assert e in Ends(s, e);
  }

  // a rule about the first n characters of s
  ghost predicate OwnRuleAt(names: Names, s: string, n: nat, c: Verdict) {
    n <= |s| && DottedEnd(s, n) && c in OwnRules(names, s[..n])
  }

  lemma BatchOwnMembers(names: Names, s: string, c: Verdict)
    ensures c in OwnCandidates(names, s, 0) <==> exists n: nat :: OwnRuleAt(names, s, n, c)
  {
    OwnCandidatesMembers(names, s, 0, c);
    forall n: nat | n <= |s| ensures n in Ends(s, 0) <==> DottedEnd(s, n) {
      EndsAreDotted(s, 0, n);
    }
    if n: nat :| OwnRuleAt(names, s, n, c) {
      assert n in Ends(s, 0);
    }
    if c in OwnCandidates(names, s, 0) {
      var n :| n in Ends(s, 0) && n <= |s| && c in OwnRules(names, s[..n]);
      assert OwnRuleAt(names, s, n, c);
    }
  }

  ghost predicate OwnRuleIn(batches: seq<Tree>, s: string, c: Verdict, b: Tree) {
    b in batches && exists n: nat :: OwnRuleAt(Contents(b), s, n, c)
  }

  // The candidates for owning a name are the rules about its dotted prefixes.
  lemma {:induction false} AllOwnCandidatesMembers(batches: seq<Tree>, s: string, c: Verdict)
    ensures c in AllOwnCandidates(batches, s) <==> exists b :: OwnRuleIn(batches, s, c, b)
  {
    if batches != [] {
      var front, last := batches[..|batches| - 1], batches[|batches| - 1];
      AllOwnCandidatesMembers(front, s, c);
      BatchOwnMembers(Contents(last), s, c);
      assert c in AllOwnCandidates(batches, s) <==>
        c in AllOwnCandidates(front, s) || c in OwnCandidates(Contents(last), s, 0);
      hide AllOwnCandidates;
      hide OwnCandidates;
      hide OwnRuleAt;
      hide Contents;
      forall b ensures OwnRuleIn(batches, s, c, b) <==>
        OwnRuleIn(front, s, c, b) || (b == last && c in OwnCandidates(Contents(last), s, 0)) {
        assert b in batches <==> b in front || b == last;
      }
      assert c in OwnCandidates(Contents(last), s, 0) ==> OwnRuleIn(batches, s, c, last);
    }
  }

  // What decides about owning a name: the verdicts that the batches remember for the empty prefix, a
  // prefix in front of a dot, or the whole name.
  lemma OwnCandidateIff(batches: seq<Tree>, s: string, c: Verdict)
    ensures c in AllOwnCandidates(batches, s) <==>
      exists b: Tree, n: nat ::
        && b in batches && n <= |s| && (n == 0 || n == |s| || s[n] == '.')
        && s[..n] in Contents(b) && (c == Contents(b)[s[..n]].own || c == Contents(b)[s[..n]].ownPrefix)
  {
    AllOwnCandidatesMembers(batches, s, c);
    hide AllOwnCandidates;
    hide Contents;
    if b: Tree :| OwnRuleIn(batches, s, c, b) {
      var n: nat :| OwnRuleAt(Contents(b), s, n, c);
      assert b in batches && s[..n] in Contents(b);
    }
    forall b: Tree, n: nat
      ensures b in batches && n <= |s| && (n == 0 || n == |s| || s[n] == '.') && s[..n] in Contents(b)
        && (c == Contents(b)[s[..n]].own || c == Contents(b)[s[..n]].ownPrefix)
        ==> OwnRuleIn(batches, s, c, b) {
      if n <= |s| && s[..n] in Contents(b) && (n == 0 || n == |s| || s[n] == '.')
        && (c == Contents(b)[s[..n]].own || c == Contents(b)[s[..n]].ownPrefix) {
        assert OwnRuleAt(Contents(b), s, n, c);
      }
    }
  }

  // ---------------------------------------------------------------- filling a batch

  // what a batch remembers of a verdict and a later one
  function Kept(v: Verdict, c: Verdict): Verdict {
    if c.priority >= v.priority then c else v
  }

  function KeptOf(candidates: seq<Verdict>): Verdict {
    if candidates == [] then DENY
    else Kept(KeptOf(candidates[..|candidates| - 1]), candidates[|candidates| - 1])
  }

  // It is enough to remember one verdict: it is one of the highest priority, and the one that
  // would have been found if no two of them disagree.
  lemma {:induction false} KeptIsTop(candidates: seq<Verdict>)
    ensures NoneCounts(candidates) ==> KeptOf(candidates).priority == 0
    ensures !NoneCounts(candidates) ==> Top(candidates, KeptOf(candidates))
    ensures OrderIrrelevant(candidates) && !NoneCounts(candidates) ==> KeptOf(candidates) == Fold(DENY, candidates)
  {
    if candidates != [] {
      var n := |candidates| - 1;
      var front, last := candidates[..n], candidates[n];
      KeptIsTop(front);
      assert candidates == front + [last];
      assert NoneCounts(candidates) <==> NoneCounts(front) && last.priority == 0;
    }
    OrderIrrelevantIff(candidates);
    FoldIsBest(candidates);
    if !NoneCounts(candidates) {
      assert Top(candidates, Fold(DENY, candidates));
    }
  }

  class PolicyBatch {
    var names: Names

    constructor ()
      ensures names == map[]
    {
      names := map[];
    }

    // policy_batch_at_name()
    method AtName(name: string)
      modifies this
      ensures names == old(names)[name := if name in old(names) then old(names)[name] else NO_ENTRY]
    {
      if name !in names {
        names := names[name := NO_ENTRY];
      }
    }

    // policy_batch_add_own(): the last verdict of the highest priority is remembered
    method AddOwn(name: string, verdict: Verdict)
      modifies this
      ensures var e := if name in old(names) then old(names)[name] else NO_ENTRY;
        names == old(names)[name := e.(own := Kept(e.own, verdict))]
    {
      AtName(name);
      if verdict.priority >= names[name].own.priority {
        names := names[name := names[name].(own := verdict)];
      }
    }

    // policy_batch_add_own_prefix()
    method AddOwnPrefix(name: string, verdict: Verdict)
      modifies this
      ensures var e := if name in old(names) then old(names)[name] else NO_ENTRY;
        names == old(names)[name := e.(ownPrefix := Kept(e.ownPrefix, verdict))]
    {
      AtName(name);
      if verdict.priority >= names[name].ownPrefix.priority {
        names := names[name := names[name].(ownPrefix := verdict)];
      }
    }

    // policy_batch_add_send() and policy_batch_add_recv()
    method AddXmit(name: string, isSend: bool, x: Xmit)
      modifies this
      ensures RulesFor(names, isSend, name) == RulesFor(old(names), isSend, name) + [x]
      ensures RulesFor(names, !isSend, name) == RulesFor(old(names), !isSend, name)
      ensures forall n :: n != name ==> EntryFor(names, n) == EntryFor(old(names), n)
    {
      AtName(name);
      var e := names[name];
      names := names[name := if isSend then e.(send := e.send + [x]) else e.(recv := e.recv + [x])];
    }
  }
}
