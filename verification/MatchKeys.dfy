/** Match rule keys (src/bus/match.c): their order and what messages they match. */
module MatchKeys {
  import opened Base
  import Address

  const MAX_ARGS: nat := 64

  // MatchKeys together with its MatchFilter; absent strings are NULL in the source.
  datatype Keys = Keys(
    msgType: nat,
    senderId: Option<nat>,
    iface: Option<string>,
    member: Option<string>,
    path: Option<string>,
    args: seq<Option<string>>,
    nArgs: nat,
    argPaths: seq<Option<string>>,
    nArgPaths: nat,
    destination: Option<string>,
    sender: Option<string>,
    pathNamespace: Option<string>,
    arg0Namespace: Option<string>)

  // n is one past the last present entry of a 64-entry array.
  predicate ArgsShape(args: seq<Option<string>>, n: nat) {
    && |args| == MAX_ARGS
    && n <= MAX_ARGS
    && (n > 0 ==> args[n - 1].Some?)
    && forall i :: n <= i < MAX_ARGS ==> args[i].None?
  }

  function SenderId(sender: Option<string>): Option<nat> {
    if sender.None? then None
    else match Address.FromString(sender.value)
         case Id(id) => Some(id)
         case _ => None
  }

  // The shape of every Keys value that the parser fills in.
  predicate WellFormed(k: Keys) {
    && ArgsShape(k.args, k.nArgs)
    && ArgsShape(k.argPaths, k.nArgPaths)
    && k.senderId == SenderId(k.sender)
  }

  const EMPTY: Keys :=
    Keys(0, None, None, None, None, seq(MAX_ARGS, _ => None), 0, seq(MAX_ARGS, _ => None), 0, None, None, None, None)

  type RuleKeys = k: Keys | WellFormed(k) witness EMPTY

  // ---------------------------------------------------------------- order

  datatype Atom = Text(text: Option<string>) | Num(num: nat)

  function NumCompare(a: nat, b: nat): int {
    if a < b then -1 else if a > b then 1 else 0
  }

  function AtomCompare(a: Atom, b: Atom): int {
    match (a, b)
    case (Text(x), Text(y)) => OptionCompare(x, y)
    case (Num(x), Num(y)) => NumCompare(x, y)
    case (Text(_), Num(_)) => -1
    case (Num(_), Text(_)) => 1
  }

  lemma AtomCompareTotalOrder()
    ensures TotalOrder(AtomCompare)
  {
    OptionCompareTotalOrder();
    forall a, b, c | AtomCompare(a, b) < 0 && AtomCompare(b, c) < 0
      ensures AtomCompare(a, c) < 0
    {
      if a.Text? && b.Text? && c.Text? {
        assert OptionCompare(a.text, b.text) < 0 && OptionCompare(b.text, c.text) < 0;
      }
    }
  }

  function ArgCount(k: Keys): nat {
    Max(k.nArgs, k.nArgPaths)
  }

  function ArgAtoms(k: RuleKeys, i: nat): seq<Atom>
    decreases ArgCount(k) - i
  {
    if i >= ArgCount(k) then []
    else [Text(k.args[i])] + ([Text(k.argPaths[i])] + ArgAtoms(k, i + 1))
  }

  function CountAtoms(k: RuleKeys): seq<Atom>
  {
    [Num(k.msgType)] + ([Num(k.nArgs)] + ([Num(k.nArgPaths)] + ArgAtoms(k, 0)))
  }

  // The fields in the sequence in which they are compared.
  function Flatten(k: RuleKeys): seq<Atom>
  {
    [Text(k.sender)] + ([Text(k.destination)] + ([Text(k.iface)] + ([Text(k.member)] +
    ([Text(k.path)] + ([Text(k.pathNamespace)] + ([Text(k.arg0Namespace)] + CountAtoms(k)))))))
  }

  // The tree order: lexicographic in the flattened fields.
  function KeysCompare(a: RuleKeys, b: RuleKeys): int
  {
    LexCompare(AtomCompare, Flatten(a), Flatten(b))
  }

  lemma LexStep(x: Atom, a: seq<Atom>, y: Atom, b: seq<Atom>)
    ensures LexCompare(AtomCompare, [x] + a, [y] + b)
         == if AtomCompare(x, y) != 0 then AtomCompare(x, y) else LexCompare(AtomCompare, a, b)
  {
    assert ([x] + a)[1..] == a && ([y] + b)[1..] == b;
  }

  // match_keys_compare()
  method CompareKeys(a: RuleKeys, b: RuleKeys) returns (r: int)
    ensures r == KeysCompare(a, b)
  {
    r := CompareTexts(a, b);
    if r != 0 {
      return;
    }
    r := CompareCounts(a, b);
  }

  // the seven strings
  method CompareTexts(a: RuleKeys, b: RuleKeys) returns (r: int)
    ensures r != 0 ==> r == KeysCompare(a, b)
    ensures r == 0 ==> KeysCompare(a, b) == LexCompare(AtomCompare, CountAtoms(a), CountAtoms(b))
  {
    var a6, b6 := [Text(a.arg0Namespace)] + CountAtoms(a), [Text(b.arg0Namespace)] + CountAtoms(b);
    var a5, b5 := [Text(a.pathNamespace)] + a6, [Text(b.pathNamespace)] + b6;
    var a4, b4 := [Text(a.path)] + a5, [Text(b.path)] + b5;
    var a3, b3 := [Text(a.member)] + a4, [Text(b.member)] + b4;
    var a2, b2 := [Text(a.iface)] + a3, [Text(b.iface)] + b3;
    var a1, b1 := [Text(a.destination)] + a2, [Text(b.destination)] + b2;
    LexStep(Text(a.sender), a1, Text(b.sender), b1);
    r := OptionCompare(a.sender, b.sender);
    if r != 0 { return; }
    LexStep(Text(a.destination), a2, Text(b.destination), b2);
    r := OptionCompare(a.destination, b.destination);
    if r != 0 { return; }
    LexStep(Text(a.iface), a3, Text(b.iface), b3);
    r := OptionCompare(a.iface, b.iface);
    if r != 0 { return; }
    LexStep(Text(a.member), a4, Text(b.member), b4);
    r := OptionCompare(a.member, b.member);
    if r != 0 { return; }
    LexStep(Text(a.path), a5, Text(b.path), b5);
    r := OptionCompare(a.path, b.path);
    if r != 0 { return; }
    LexStep(Text(a.pathNamespace), a6, Text(b.pathNamespace), b6);
    r := OptionCompare(a.pathNamespace, b.pathNamespace);
    if r != 0 { return; }
    LexStep(Text(a.arg0Namespace), CountAtoms(a), Text(b.arg0Namespace), CountAtoms(b));
    r := OptionCompare(a.arg0Namespace, b.arg0Namespace);
  }

  // the type, the two counts and the interleaved argument arrays
  method CompareCounts(a: RuleKeys, b: RuleKeys) returns (r: int)
    ensures r == LexCompare(AtomCompare, CountAtoms(a), CountAtoms(b))
  {
    var a2, b2 := [Num(a.nArgPaths)] + ArgAtoms(a, 0), [Num(b.nArgPaths)] + ArgAtoms(b, 0);
    var a1, b1 := [Num(a.nArgs)] + a2, [Num(b.nArgs)] + b2;
    LexStep(Num(a.msgType), a1, Num(b.msgType), b1);
    if a.msgType > b.msgType { return 1; }
    if a.msgType < b.msgType { return -1; }
    LexStep(Num(a.nArgs), a2, Num(b.nArgs), b2);
    if a.nArgs < b.nArgs { return -1; }
    if a.nArgs > b.nArgs { return 1; }
    LexStep(Num(a.nArgPaths), ArgAtoms(a, 0), Num(b.nArgPaths), ArgAtoms(b, 0));
    if a.nArgPaths < b.nArgPaths { return -1; }
    if a.nArgPaths > b.nArgPaths { return 1; }

    var i := 0;
    while i < a.nArgs || i < a.nArgPaths
      invariant 0 <= i <= ArgCount(a)
      invariant LexCompare(AtomCompare, CountAtoms(a), CountAtoms(b))
             == LexCompare(AtomCompare, ArgAtoms(a, i), ArgAtoms(b, i))
      decreases ArgCount(a) - i
    {
      LexStep(Text(a.args[i]), [Text(a.argPaths[i])] + ArgAtoms(a, i + 1),
              Text(b.args[i]), [Text(b.argPaths[i])] + ArgAtoms(b, i + 1));
      r := OptionCompare(a.args[i], b.args[i]);
      if r != 0 { return; }
      LexStep(Text(a.argPaths[i]), ArgAtoms(a, i + 1), Text(b.argPaths[i]), ArgAtoms(b, i + 1));
      r := OptionCompare(a.argPaths[i], b.argPaths[i]);
      if r != 0 { return; }
      i := i + 1;
    }
    return 0;
  }

  lemma {:induction false} ArgAtomsDetermine(a: RuleKeys, b: RuleKeys, i: nat)
    requires ArgCount(a) == ArgCount(b)
    requires ArgAtoms(a, i) == ArgAtoms(b, i)
    ensures forall j :: i <= j < ArgCount(a) ==> a.args[j] == b.args[j] && a.argPaths[j] == b.argPaths[j]
    decreases ArgCount(a) - i
  {
    hide SenderId;
    if i < ArgCount(a) {
      ArgAtomsFirst(a, b, i);
      hide ArgAtoms;
      ArgAtomsDetermine(a, b, i + 1);
    }
  }

  lemma ArgAtomsFirst(a: RuleKeys, b: RuleKeys, i: nat)
    requires i < ArgCount(a) == ArgCount(b) && ArgAtoms(a, i) == ArgAtoms(b, i)
    ensures a.args[i] == b.args[i] && a.argPaths[i] == b.argPaths[i] && ArgAtoms(a, i + 1) == ArgAtoms(b, i + 1)
  {
    HeadsEqual(Text(a.args[i]), Text(a.argPaths[i]), ArgAtoms(a, i + 1), Text(b.args[i]), Text(b.argPaths[i]),
      ArgAtoms(b, i + 1));
  }

  lemma HeadsEqual<T>(x0: T, x1: T, xs: seq<T>, y0: T, y1: T, ys: seq<T>)
    requires [x0] + ([x1] + xs) == [y0] + ([y1] + ys)
    ensures x0 == y0 && x1 == y1 && xs == ys
  {
    var x, y := [x0] + ([x1] + xs), [y0] + ([y1] + ys);
    assert x[0] == y[0] && x[1] == y[1] && x[2..] == xs && y[2..] == ys;
  }

  lemma FlattenInjective(a: RuleKeys, b: RuleKeys)
    requires Flatten(a) == Flatten(b)
    ensures a == b
  {
    var x, y := Flatten(a), Flatten(b);
    assert x[0] == y[0] && x[1] == y[1] && x[2] == y[2] && x[3] == y[3] && x[4] == y[4];
    assert x[5] == y[5] && x[6] == y[6];
    assert CountAtoms(a) == x[7..] == y[7..] == CountAtoms(b);
    CountsDetermine(a, b);
  }

  lemma CountsDetermine(a: RuleKeys, b: RuleKeys)
    requires CountAtoms(a) == CountAtoms(b)
    ensures a.msgType == b.msgType && a.nArgs == b.nArgs && a.nArgPaths == b.nArgPaths
    ensures a.args == b.args && a.argPaths == b.argPaths
  {
    var c, d := CountAtoms(a), CountAtoms(b);
    assert c[0] == d[0] && c[1] == d[1] && c[2] == d[2];
    assert ArgAtoms(a, 0) == c[3..] == d[3..] == ArgAtoms(b, 0);
    ArgAtomsDetermine(a, b, 0);
    assert forall j :: 0 <= j < MAX_ARGS ==> a.args[j] == b.args[j] && a.argPaths[j] == b.argPaths[j];
  }

  // The key order is antisymmetric and its ties are equal keys, so that a tie in a tree
  // can never merge two rules that match different messages.
  lemma KeysCompareTies(a: RuleKeys, b: RuleKeys)
    ensures KeysCompare(a, b) == 0 <==> a == b
    ensures KeysCompare(a, b) < 0 <==> KeysCompare(b, a) > 0
  {
    AtomCompareTotalOrder();
    LexTies(AtomCompare, Flatten(a), Flatten(b));
    if Flatten(a) == Flatten(b) {
      FlattenInjective(a, b);
    }
  }

  lemma KeysCompareTransitive(a: RuleKeys, b: RuleKeys, c: RuleKeys)
    requires KeysCompare(a, b) < 0 && KeysCompare(b, c) < 0
    ensures KeysCompare(a, c) < 0
  {
    AtomCompareTotalOrder();
    LexTransitive(AtomCompare, Flatten(a), Flatten(b), Flatten(c));
  }

  // ---------------------------------------------------------------- matching

  datatype Arg = Arg(element: char, value: Option<string>)

  // MessageMetadata, as far as matching reads it
  datatype Metadata = Metadata(
    msgType: nat,
    senderId: Option<nat>,
    path: Option<string>,
    iface: Option<string>,
    member: Option<string>,
    args: seq<Arg>,
    nArgs: nat)

  predicate ValidMetadata(m: Metadata) {
    |m.args| == MAX_ARGS && m.nArgs <= MAX_ARGS
  }

  type MessageMetadata = m: Metadata | ValidMetadata(m)
    witness Metadata(0, None, None, None, None, seq(MAX_ARGS, _ => Arg('\0', None)), 0)

  // s lies in a namespace: it is the namespace itself or goes on with a delimiter after it.
  predicate InNamespace(s: Option<string>, ns: string, delimiter: char) {
    && s.Some?
    && (s.value == ns || ns + [delimiter] <= s.value)
  }

  // prefix is s, or a directory above s (it ends in the delimiter); the empty string is neither.
  predicate IsDirectoryOf(prefix: string, s: string, delimiter: char) {
    prefix != "" && prefix <= s && (prefix == s || prefix[|prefix| - 1] == delimiter)
  }

  // match_string_prefix() on two strings that do not share storage
  method StringPrefix(s: Option<string>, prefix: string, delimiter: char, included: bool) returns (r: bool)
    ensures !included ==> (r <==> InNamespace(s, prefix, delimiter))
    ensures included ==> (r <==> s.Some? && IsDirectoryOf(prefix, s.value, delimiter))
  {
    if s.None? {
      return false;
    }
    if !(prefix <= s.value) {
      return false;
    }
    var tail := s.value[|prefix|..];
    assert s.value == prefix + tail;
    if included {
      if |tail| == |s.value| || (tail != "" && s.value[|prefix| - 1] != delimiter) {
        return false;
      }
    } else {
      if tail != "" && tail[0] != delimiter {
        return false;
      }
    }
    return true;
  }

  // The rule "either is a directory above the other" of argNpath keys
  predicate PathsRelated(v: Option<string>, p: string) {
    v.Some? && (IsDirectoryOf(p, v.value, '/') || IsDirectoryOf(v.value, p, '/'))
  }

  predicate ArgsMatch(k: RuleKeys, m: MessageMetadata) {
    && (forall i :: 0 <= i < MAX_ARGS && k.args[i].Some? ==>
          m.args[i].element == 's' && m.args[i].value == k.args[i])
    && (forall i :: 0 <= i < MAX_ARGS && k.argPaths[i].Some? ==>
          PathsRelated(m.args[i].value, k.argPaths[i].value))
  }

  // What a rule promises: every key it carries agrees with the message.
  predicate Matches(k: RuleKeys, m: MessageMetadata) {
    && k.nArgs <= m.nArgs
    && k.nArgPaths <= m.nArgs
    && (k.pathNamespace.Some? ==> InNamespace(m.path, k.pathNamespace.value, '/'))
    && (k.arg0Namespace.Some? ==> m.args[0].element == 's' && InNamespace(m.args[0].value, k.arg0Namespace.value, '.'))
    && ArgsMatch(k, m)
    && (k.msgType == 0 || k.msgType == m.msgType)
    && (k.senderId.None? || k.senderId == m.senderId)
    && (k.iface.None? || k.iface == m.iface)
    && (k.member.None? || k.member == m.member)
    && (k.path.None? || k.path == m.path)
  }

  // The same, key by key: a message matches exactly if it agrees with every key that is present.
  // Argument keys want that argument to exist, argN a string that is equal, argNpath any value of
  // which one is the other or a directory above it.
  lemma MatchesIff(k: RuleKeys, m: MessageMetadata)
    ensures Matches(k, m) <==>
      && (k.msgType != 0 ==> m.msgType == k.msgType)
      && (k.senderId.Some? ==> m.senderId == k.senderId)
      && (k.iface.Some? ==> m.iface == k.iface)
      && (k.member.Some? ==> m.member == k.member)
      && (k.path.Some? ==> m.path == k.path)
      && (k.pathNamespace.Some? ==>
            m.path.Some? && (m.path == k.pathNamespace || k.pathNamespace.value + "/" <= m.path.value))
      && (k.arg0Namespace.Some? ==>
            && m.args[0].element == 's' && m.args[0].value.Some?
            && (m.args[0].value == k.arg0Namespace || k.arg0Namespace.value + "." <= m.args[0].value.value))
      && (forall i :: 0 <= i < 64 && k.args[i].Some? ==>
            i < m.nArgs && m.args[i].element == 's' && m.args[i].value == k.args[i])
      && (forall i :: 0 <= i < 64 && k.argPaths[i].Some? ==>
            && i < m.nArgs && m.args[i].value.Some?
            && var v, p := m.args[i].value.value, k.argPaths[i].value;
            || (p != "" && p <= v && (p == v || p[|p| - 1] == '/'))
            || (v != "" && v <= p && (v == p || v[|v| - 1] == '/')))
  {
    assert k.nArgs > 0 ==> k.args[k.nArgs - 1].Some?;
    assert k.nArgPaths > 0 ==> k.argPaths[k.nArgPaths - 1].Some?;
  }

  // The destination of a rule is compared with that of no message.
  lemma DestinationIgnored(k: RuleKeys, d: Option<string>, m: MessageMetadata)
    ensures Matches(k.(destination := d), m) <==> Matches(k, m)
  {
  }

  // match_keys_match_metadata()
  method MatchMetadata(k: RuleKeys, m: MessageMetadata) returns (r: bool)
    ensures r <==> Matches(k, m)
    ensures r <==>
      && (k.msgType != 0 ==> m.msgType == k.msgType)
      && (k.senderId.Some? ==> m.senderId == k.senderId)
      && (k.iface.Some? ==> m.iface == k.iface)
      && (k.member.Some? ==> m.member == k.member)
      && (k.path.Some? ==> m.path == k.path)
      && (k.pathNamespace.Some? ==>
            m.path.Some? && (m.path == k.pathNamespace || k.pathNamespace.value + "/" <= m.path.value))
      && (k.arg0Namespace.Some? ==>
            && m.args[0].element == 's' && m.args[0].value.Some?
            && (m.args[0].value == k.arg0Namespace || k.arg0Namespace.value + "." <= m.args[0].value.value))
      && (forall i :: 0 <= i < 64 && k.args[i].Some? ==>
            i < m.nArgs && m.args[i].element == 's' && m.args[i].value == k.args[i])
      && (forall i :: 0 <= i < 64 && k.argPaths[i].Some? ==>
            && i < m.nArgs && m.args[i].value.Some?
            && var v, p := m.args[i].value.value, k.argPaths[i].value;
            || (p != "" && p <= v && (p == v || p[|p| - 1] == '/'))
            || (v != "" && v <= p && (v == p || v[|v| - 1] == '/')))
  {
    MatchesIff(k, m);
    if k.nArgs > m.nArgs || k.nArgPaths > m.nArgs {
      return false;
    }
    if k.pathNamespace.Some? {
      var b := StringPrefix(m.path, k.pathNamespace.value, '/', false);
      if !b { return false; }
    }
    if k.arg0Namespace.Some? {
      var b := StringPrefix(m.args[0].value, k.arg0Namespace.value, '.', false);
      if !(m.args[0].element == 's' && b) { return false; }
    }
    hide ArgsMatch;
    hide InNamespace;
    var args := MatchArgs(k, m);
    return args
        && (k.msgType == 0 || k.msgType == m.msgType)
        && (k.senderId.None? || k.senderId == m.senderId)
        && (k.iface.None? || k.iface == m.iface)
        && (k.member.None? || k.member == m.member)
        && (k.path.None? || k.path == m.path);
  }

  // the loop over the arguments
  method MatchArgs(k: RuleKeys, m: MessageMetadata) returns (r: bool)
    ensures r <==> ArgsMatch(k, m)
  {
    hide IsDirectoryOf;
    var i := 0;
    while i < k.nArgs || i < k.nArgPaths
      invariant 0 <= i <= ArgCount(k)
      invariant forall j :: 0 <= j < i && k.args[j].Some? ==>
        m.args[j].element == 's' && m.args[j].value == k.args[j]
      invariant forall j :: 0 <= j < i && k.argPaths[j].Some? ==>
        PathsRelated(m.args[j].value, k.argPaths[j].value)
      decreases ArgCount(k) - i
    {
      if k.args[i].Some? && !(m.args[i].element == 's' && m.args[i].value == k.args[i]) {
        return false;
      }
      if k.argPaths[i].Some? {
        var below := StringPrefix(m.args[i].value, k.argPaths[i].value, '/', true);
        if !below {
          if m.args[i].value.None? {
            return false;
          }
          var above := StringPrefix(k.argPaths[i], m.args[i].value.value, '/', true);
          if !above {
            return false;
          }
        }
      }
      i := i + 1;
    }
    return true;
  }
}
