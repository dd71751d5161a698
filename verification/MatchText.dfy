/**
 The text of match rules (src/bus/match.c): key=value pairs, values quoted in the way of the
 D-Bus Specification ("Match Rules"), copied to one buffer that is as long as the text.
 */
module MatchText {
  import opened Base
  import opened MatchKeys
  import Address

  const NUL := '\0'

  predicate Terminated(s: string) {
    NUL !in s
  }

  // ---------------------------------------------------------------- values

  // The first value of s, and what follows its comma. Apostrophes switch quoting; \' stands for
  // an apostrophe outside of quotes.
  function Value(s: string, quoted: bool): Option<(string, string)> {
    if s == "" then if quoted then None else Some(("", ""))
    else if s[0] == '\'' then Value(s[1..], !quoted)
    else if s[0] == ',' && !quoted then Some(("", s[1..]))
    else if s[0] == '\\' && !quoted && |s| > 1 && s[1] == '\'' then Prepend("'", Value(s[2..], quoted))
    else Prepend([s[0]], Value(s[1..], quoted))
  }

  function Prepend(v: string, r: Option<(string, string)>): Option<(string, string)> {
    if r.None? then None else Some((v + r.value.0, r.value.1))
  }

  lemma PrependTwice(v: string, w: string, r: Option<(string, string)>)
    ensures Prepend(v, Prepend(w, r)) == Prepend(v + w, r)
    ensures Prepend("", r) == r
  {
    if r.Some? {
      ConcatAssociates(v, w, r.value.0);
      assert "" + r.value.0 == r.value.0;
    }
  }

  lemma {:induction false} ValueRest(s: string, quoted: bool)
    requires Terminated(s) && Value(s, quoted).Some?
    ensures var (v, rest) := Value(s, quoted).value;
      && NUL !in v && |rest| <= |s| && rest == s[|s| - |rest|..]
      && |v| + |rest| <= |s| && (rest != "" ==> |v| + |rest| < |s|)
    decreases |s|
  {
    if s != "" {
      if s[0] == '\'' {
        ValueRest(s[1..], !quoted);
      } else if s[0] == ',' && !quoted {
      } else if s[0] == '\\' && !quoted && |s| > 1 && s[1] == '\'' {
        ValueRest(s[2..], quoted);
      } else {
        ValueRest(s[1..], quoted);
      }
    }
  }

  // match_copy_value(): the value and a NUL go to the buffer; a byte is written for at most one
  // byte of the text, and one for its end
  method CopyValue(s: string, m0: nat, buffer: array<char>, p0: nat) returns (ok: bool, m: nat, p: nat)
    requires Terminated(s) && m0 <= |s| && p0 + (|s| - m0) + 1 <= buffer.Length
    modifies buffer
    ensures buffer[..p0] == old(buffer[..p0])
    ensures p0 < p <= p0 + (|s| - m0) + 1
    ensures ok <==> Value(s[m0..], false).Some?
    ensures ok ==> m0 <= m <= |s| && (s[m..] == Value(s[m0..], false).value.1)
    ensures ok ==> buffer[p0..p] == Value(s[m0..], false).value.0 + [NUL]
    ensures ok ==> p - p0 <= m - m0 + (if m == |s| then 1 else 0)
  {
    m, p := m0, p0;
    var quoted := false;
    var c := ' ';
    ghost var all := Value(s[m0..], false);
    PrependTwice("", "", all);
    assert buffer[p0..p] == "";
    while c != NUL
      invariant m0 <= m <= |s| && p0 <= p <= buffer.Length
      invariant buffer[..p0] == old(buffer[..p0])
      invariant c != NUL ==> p - p0 <= m - m0 && all == Prepend(buffer[p0..p], Value(s[m..], quoted))
      invariant c == NUL ==> p > p0 && p - p0 <= m - m0 + (if m == |s| then 1 else 0)
      invariant c == NUL ==>
        if quoted then all.None? else all == Some((buffer[p0..p - 1], s[m..])) && buffer[p - 1] == NUL
      decreases c != NUL, |s| - m
    {
      m, quoted := SkipApostrophes(s, m, quoted);
      ghost var before, from := buffer[p0..p], m;
      if m == |s| {
        c := NUL;
      } else {
        c := s[m];
        m := m + 1;
        if c == ',' {
          c := if quoted then ',' else NUL;
        } else if c == '\\' && !quoted && m < |s| && s[m] == '\'' {
          c := '\'';
          m := m + 1;
        }
      }
      ValueStep(s, from, quoted, m, c);
      hide Value;
      buffer[p] := c;
      p := p + 1;
      assert buffer[p0..p] == before + [c] && buffer[p0..p - 1] == before;
      PrependTwice(before, [c], Value(s[m..], quoted));
      assert before + "" == before;
    }
    ok := !quoted;
  }

  // the apostrophes in front of a character
  method SkipApostrophes(s: string, m0: nat, quoted0: bool) returns (m: nat, quoted: bool)
    requires m0 <= |s|
    ensures m0 <= m <= |s| && Value(s[m0..], quoted0) == Value(s[m..], quoted)
    ensures m < |s| ==> s[m] != '\''
  {
    m, quoted := m0, quoted0;
    while m < |s| && s[m] == '\''
      invariant m0 <= m <= |s| && Value(s[m0..], quoted0) == Value(s[m..], quoted)
    {
      assert s[m..][1..] == s[m + 1..];
      quoted := !quoted;
      m := m + 1;
    }
  }

  // one character, which is no apostrophe
  lemma ValueStep(s: string, from: nat, quoted: bool, m: nat, c: char)
    requires Terminated(s) && from <= m <= |s| && (from < |s| ==> s[from] != '\'')
    requires if from == |s| then m == from && c == NUL
             else if s[from] == ',' then m == from + 1 && c == (if quoted then ',' else NUL)
             else if s[from] == '\\' && !quoted && from + 1 < |s| && s[from + 1] == '\'' then m == from + 2 && c == '\''
             else m == from + 1 && c == s[from]
    ensures c != NUL ==> Value(s[from..], quoted) == Prepend([c], Value(s[m..], quoted))
    ensures c == NUL ==> Value(s[from..], quoted) == if quoted then None else Some(("", s[m..]))
  {
    if from < |s| {
      assert s[from..][1..] == s[from + 1..] && s[from] in s;
      if from + 1 < |s| {
        assert s[from..][2..] == s[from + 2..];
      }
    }
  }

  // ---------------------------------------------------------------- quoting

  // between apostrophes, where an apostrophe itself leaves and enters the quotes again
  function Quoted(v: string): string {
    if v == "" then ""
    else (if v[0] == '\'' then "'\\''" else [v[0]]) + Quoted(v[1..])
  }

  function Quote(v: string): string {
    "'" + Quoted(v) + "'"
  }

  lemma EscapedApostrophe(rest: string)
    ensures Value("'\\''" + rest, true) == Prepend("'", Value(rest, true))
  {
    var s := "'\\''" + rest;
    assert s[1..] == "\\''" + rest;
    assert Value(s, true) == Value("\\''" + rest, false);
    assert ("\\''" + rest)[2..] == "'" + rest && ("'" + rest)[1..] == rest;
    assert Value("'" + rest, false) == Value(rest, true);
  }

  lemma {:induction false} ValueOfQuoted(v: string, tail: string)
    ensures Value(Quoted(v) + "'" + tail, true) == Prepend(v, Value(tail, false))
  {
    if v == "" {
      assert Quoted(v) + "'" + tail == "'" + tail && ("'" + tail)[1..] == tail;
      PrependTwice("", "", Value(tail, false));
    } else {
      var rest := Quoted(v[1..]) + "'" + tail;
      ValueOfQuoted(v[1..], tail);
      PrependTwice([v[0]], v[1..], Value(tail, false));
      assert [v[0]] + v[1..] == v;
      if v[0] == '\'' {
        assert Quoted(v) + "'" + tail == "'\\''" + rest;
        EscapedApostrophe(rest);
      } else {
        assert Quoted(v) + "'" + tail == [v[0]] + rest && ([v[0]] + rest)[1..] == rest;
      }
    }
  }

  // Every value has a quoted form that is read back as the value, at the end of a rule and before
  // further keys.
  lemma QuoteReadsBack(v: string, more: string)
    ensures Value(Quote(v), false) == Some((v, ""))
    ensures Value(Quote(v) + "," + more, false) == Some((v, more))
  {
    QuoteIsValue(v, "");
    QuoteIsValue(v, "," + more);
    ValueEnds(more);
    hide Value;
    hide Quote;
    assert Quote(v) + "" == Quote(v) && v + "" == v && Quote(v) + ("," + more) == Quote(v) + "," + more;
  }

  lemma QuoteIsValue(v: string, tail: string)
    ensures Value(Quote(v) + tail, false) == Prepend(v, Value(tail, false))
  {
    assert (Quote(v) + tail)[1..] == Quoted(v) + "'" + tail;
    ValueOfQuoted(v, tail);
    hide Quoted;
  }

  // a value ends with the text, or in front of a comma
  lemma ValueEnds(more: string)
    ensures Value("", false) == Some(("", "")) && Value("," + more, false) == Some(("", more))
  {
    assert ("," + more)[1..] == more;
  }

  // ---------------------------------------------------------------- keys

  const SEPARATORS := " \t\n\r="
  const BLANKS := " \t\n\r"

  predicate EndOf(t: string, s: string) {
    |t| <= |s| && t == s[|s| - |t|..]
  }

  lemma EndOfEnd(u: string, t: string, s: string)
    requires EndOf(u, t) && EndOf(t, s)
    ensures EndOf(u, s)
  {
    Suffix(s, |s| - |t|, |t| - |u|);
  }

  function Skip(s: string, chars: string): (t: string)
    ensures EndOf(t, s)
    ensures t != "" ==> t[0] !in chars
  {
    if s != "" && s[0] in chars then Skip(s[1..], chars) else s
  }

  function Span(s: string, chars: string): (n: nat)
    ensures n <= |s| && (forall i :: 0 <= i < n ==> s[i] !in chars) && (n < |s| ==> s[n] in chars)
  {
    if s != "" && s[0] !in chars then 1 + Span(s[1..], chars) else 0
  }

  datatype NextKey = EndOfRule | InvalidKey | Key(key: string, rest: string)

  // match_parse_key()
  function ParseKey(s: string): (r: NextKey)
    ensures r.Key? ==> |r.rest| < |s| && EndOf(r.rest, s)
  {
    var t := Skip(s, SEPARATORS);
    if t == "" then EndOfRule
    else
      var n := Span(t, SEPARATORS);
      if n == |t| then InvalidKey
      else
        var u := Skip(t[n..], BLANKS);
        if u == "" || u[0] != '=' then InvalidKey
        else
          EndOfEnd(u, t[n..], t);
          EndOfEnd(u[1..], u, t);
          EndOfEnd(u[1..], t, s);
          Key(t[..n], u[1..])
  }

  predicate ValidInterface(s: string) {
    |s| <= 255 && Address.ValidDotted(s, false, false, false, true)
  }

  predicate ValidNamespace(s: string) {
    && |s| <= 255
    && if s != "" && s[0] == ':' then Address.ValidDotted(s[1..], true, true, true, true)
       else Address.ValidDotted(s, true, false, true, true)
  }

  predicate ValidMember(s: string) {
    && 0 < |s| <= 255 && !('0' <= s[0] <= '9')
    && forall i :: 0 <= i < |s| ==> 'a' <= s[i] <= 'z' || 'A' <= s[i] <= 'Z' || '0' <= s[i] <= '9' || s[i] == '_'
  }

  // c_dvar_is_path()
  predicate ValidPath(s: string) {
    && s != "" && s[0] == '/' && (s == "/" || s[|s| - 1] != '/')
    && forall i :: 0 < i < |s| ==>
         if s[i] == '/' then s[i - 1] != '/'
         else 'a' <= s[i] <= 'z' || 'A' <= s[i] <= 'Z' || '0' <= s[i] <= '9' || s[i] == '_'
  }

  // The root, or elements of letters, digits and '_', each behind one slash
  lemma PathIff(s: string)
    ensures ValidPath("/")
    ensures ValidPath(s) && s != "/" <==>
      && |s| > 1 && s[0] == '/' && s[|s| - 1] != '/'
      && (forall i :: 0 < i < |s| && s[i] == '/' ==> s[i - 1] != '/')
      && (forall i :: 0 < i < |s| && s[i] != '/' ==>
            'a' <= s[i] <= 'z' || 'A' <= s[i] <= 'Z' || '0' <= s[i] <= '9' || s[i] == '_')
  {
    assert |s| == 1 ==> s == [s[0]];
    if ValidPath(s) && s != "/" {
      forall i | 0 < i < |s| && s[i] != '/'
        ensures 'a' <= s[i] <= 'z' || 'A' <= s[i] <= 'Z' || '0' <= s[i] <= '9' || s[i] == '_' {
        var before := s[i - 1];
      }
    }
  }

  // what the D-Bus Specification promises of path_namespace: the object and all objects below it
  predicate PromisedNamespace(path: string, ns: string) {
    path == ns || ns == "/" || ns + "/" <= path
  }

  // The rule matches as promised except for the root namespace, which only matches the root.
  lemma NamespaceAsPromisedIff(path: string, ns: string)
    requires ValidPath(path) && ValidPath(ns)
    ensures (InNamespace(Some(path), ns, '/') <==> PromisedNamespace(path, ns)) <==> (ns != "/" || path == "/")
  {
    if ns == "/" && path != "/" {
      assert |path| > 1 ==> path[1] != '/';
      assert !("//" <= path);
    }
  }

  function MessageType(value: string): nat {
    if value == "method_call" then 1
    else if value == "method_return" then 2
    else if value == "error" then 3
    else if value == "signal" then 4
    else 0
  }

  // up to two digits, and what follows them
  function ArgIndex(s: string): (r: (nat, string))
    ensures r.0 < 100 && |r.1| <= |s|
  {
    if s == "" || !Address.IsDigit(s[0]) then (0, s)
    else if |s| == 1 || !Address.IsDigit(s[1]) then (Address.DigitValue(s[0]), s[1..])
    else (Address.DigitValue(s[0]) * 10 + Address.DigitValue(s[1]), s[2..])
  }

  function Present(args: seq<Option<string>>, n: nat, i: nat, value: string): (seq<Option<string>>, nat)
    requires i < |args|
  {
    (args[i := Some(value)], if i + 1 > n then i + 1 else n)
  }

  // argN and argNpath
  function AssignArg(k: RuleKeys, i: nat, suffix: string, value: string): Option<RuleKeys> {
    if (i == 0 && k.arg0Namespace.Some?) || i > 63 || k.args[i].Some? || k.argPaths[i].Some? then None
    else if suffix == "" then
      var (args, n) := Present(k.args, k.nArgs, i, value);
      Some(k.(args := args, nArgs := n))
    else if suffix == "path" then
      var (args, n) := Present(k.argPaths, k.nArgPaths, i, value);
      Some(k.(argPaths := args, nArgPaths := n))
    else None
  }

  datatype KeyName =
    | Type | Sender | Destination | Interface | Member | Path | PathNamespace | Eavesdrop | Arg0Namespace
    | ArgKey(index: nat, suffix: string)
    | Unknown

  function NameOf(key: string): KeyName {
    if key == "type" then Type
    else if key == "sender" then Sender
    else if key == "destination" then Destination
    else if key == "interface" then Interface
    else if key == "member" then Member
    else if key == "path" then Path
    else if key == "path_namespace" then PathNamespace
    else if key == "eavesdrop" then Eavesdrop
    else if key == "arg0namespace" then Arg0Namespace
    else if "arg" <= key then
      var (i, suffix) := ArgIndex(key[3..]);
      ArgKey(i, suffix)
    else Unknown
  }

  // match_keys_assign(): None if the key is unknown, taken already or excluded by another one, or
  // if the value is malformed
  function Assign(k: RuleKeys, key: KeyName, value: string, allowEavesdrop: bool): Option<RuleKeys> {
    match key
    case Type =>
      if k.msgType != 0 || MessageType(value) == 0 then None else Some(k.(msgType := MessageType(value)))
    case Sender =>
      if k.sender.Some? || !Address.ValidName(value) then None
      else Some(k.(sender := Some(value), senderId := SenderId(Some(value))))
    case Destination =>
      if k.destination.Some? || !Address.ValidName(value) then None else Some(k.(destination := Some(value)))
    case Interface =>
      if k.iface.Some? || !ValidInterface(value) then None else Some(k.(iface := Some(value)))
    case Member =>
      if k.member.Some? || !ValidMember(value) then None else Some(k.(member := Some(value)))
    case Path =>
      if k.path.Some? || k.pathNamespace.Some? || !ValidPath(value) then None else Some(k.(path := Some(value)))
    case PathNamespace =>
      if k.path.Some? || k.pathNamespace.Some? || !ValidPath(value) then None
        else Some(k.(pathNamespace := Some(value)))
    case Eavesdrop =>
      if !allowEavesdrop || (value != "true" && value != "false") then None else Some(k)
    case Arg0Namespace =>
      if k.arg0Namespace.Some? || k.args[0].Some? || k.argPaths[0].Some? || !ValidNamespace(value) then None
      else Some(k.(arg0Namespace := Some(value)))
    case ArgKey(i, suffix) => AssignArg(k, i, suffix, value)
    case Unknown => None
  }

  // ---------------------------------------------------------------- the space that keys take

  function Space(s: Option<string>): nat {
    if s.Some? then |s.value| + 1 else 0
  }

  function ArgsSpace(args: seq<Option<string>>): nat {
    if args == [] then 0 else ArgsSpace(args[..|args| - 1]) + Space(args[|args| - 1])
  }

  // all strings of the keys with their NULs
  function KeysSpace(k: Keys): nat {
    Space(k.iface) + Space(k.member) + Space(k.path) + ArgsSpace(k.args) + ArgsSpace(k.argPaths)
    + Space(k.destination) + Space(k.sender) + Space(k.pathNamespace) + Space(k.arg0Namespace)
  }

  lemma {:induction false} ArgsSpaceUpdate(args: seq<Option<string>>, i: nat, v: string)
    requires i < |args| && args[i].None?
    ensures ArgsSpace(args[i := Some(v)]) == ArgsSpace(args) + |v| + 1
  {
    var n := |args| - 1;
    if i < n {
      ArgsSpaceUpdate(args[..n], i, v);
      assert args[i := Some(v)][..n] == args[..n][i := Some(v)];
    } else {
      assert args[i := Some(v)][..n] == args[..n];
    }
  }

  lemma {:induction false} ArgsSpaceNone(n: nat)
    ensures ArgsSpace(seq(n, _ => None)) == 0
  {
    if n > 0 {
      ArgsSpaceNone(n - 1);
      var none: seq<Option<string>> := seq(n - 1, _ => None);
      assert seq(n, _ => None)[..n - 1] == none;
    }
  }

  lemma AssignArgSpace(k: RuleKeys, i: nat, suffix: string, value: string)
    requires AssignArg(k, i, suffix, value).Some?
    ensures KeysSpace(AssignArg(k, i, suffix, value).value) == KeysSpace(k) + |value| + 1
  {
    ArgsSpaceUpdate(k.args, i, value);
    ArgsSpaceUpdate(k.argPaths, i, value);
    hide ArgsSpace;
  }

  // A value takes no more room among the keys than in the text.
  lemma AssignSpace(k: RuleKeys, key: KeyName, value: string, allowEavesdrop: bool)
    requires Assign(k, key, value, allowEavesdrop).Some?
    ensures KeysSpace(Assign(k, key, value, allowEavesdrop).value) <= KeysSpace(k) + |value| + 1
  {
    hide ArgsSpace;
    hide AssignArg;
    if key.ArgKey? {
      AssignArgSpace(k, key.index, key.suffix, value);
    }
  }

  // ---------------------------------------------------------------- rules

  // what a rule string makes of the keys so far
  function ParseRule(k: RuleKeys, s: string, allowEavesdrop: bool): Option<RuleKeys>
    requires Terminated(s)
    decreases |s|
  {
    match ParseKey(s)
    case EndOfRule => Some(k)
    case InvalidKey => None
    case Key(key, rest) =>
      if Value(rest, false).None? then None
      else
        ValueRest(rest, false);
        var (value, more) := Value(rest, false).value;
        match Assign(k, NameOf(key), value, allowEavesdrop)
        case None => None
        case Some(k') => ParseRule(k', more, allowEavesdrop)
  }

  lemma ParseRuleStep(k: RuleKeys, s: string, allowEavesdrop: bool)
    requires Terminated(s)
    ensures ParseKey(s).EndOfRule? ==> ParseRule(k, s, allowEavesdrop) == Some(k)
    ensures ParseKey(s).InvalidKey? ==> ParseRule(k, s, allowEavesdrop).None?
    ensures ParseKey(s).Key? && Value(ParseKey(s).rest, false).None? ==> ParseRule(k, s, allowEavesdrop).None?
    ensures ParseKey(s).Key? && Value(ParseKey(s).rest, false).Some? ==>
      var (value, more) := Value(ParseKey(s).rest, false).value;
      && Terminated(more) && NUL !in value && |value| + |more| <= |ParseKey(s).rest|
      && var taken := Assign(k, NameOf(ParseKey(s).key), value, allowEavesdrop);
      ParseRule(k, s, allowEavesdrop) == if taken.None? then None else ParseRule(taken.value, more, allowEavesdrop)
  {
    if ParseKey(s).Key? && Value(ParseKey(s).rest, false).Some? {
      ValueRest(ParseKey(s).rest, false);
    }
  }

  datatype Progress = More | End | Failed

  // one key with its value
  method ParsePair(s: string, m0: nat, k0: RuleKeys, allowEavesdrop: bool, buffer: array<char>, n0: nat)
    returns (r: Progress, m: nat, k: RuleKeys, n: nat)
    requires Terminated(s) && m0 <= |s| && n0 + |s| - m0 <= |s| + 1 == buffer.Length
    requires m0 < |s| ==> n0 <= m0
    modifies buffer
    ensures n0 <= n <= |s| + 1
    ensures r == End ==> ParseRule(k0, s[m0..], allowEavesdrop) == Some(k0) && n == n0 && k == k0
    ensures r == Failed ==> ParseRule(k0, s[m0..], allowEavesdrop).None?
    ensures r == More ==> m0 < m <= |s| && (m < |s| ==> n <= m)
    ensures r == More ==> ParseRule(k0, s[m0..], allowEavesdrop) == ParseRule(k, s[m..], allowEavesdrop)
    ensures r == More ==> KeysSpace(k) - KeysSpace(k0) <= n - n0
  {
    hide Assign;
    hide NameOf;
    hide Value;
    hide KeysSpace;
    hide ParseRule;
    hide ParseKey;
    m, k, n := m0, k0, n0;
    ghost var t := s[m0..];
    ParseRuleStep(k0, t, allowEavesdrop);
    var next, from := ParseKeyAt(s, m0);
    if next.EndOfRule? {
      return End, m, k, n;
    }
    if next.InvalidKey? {
      return Failed, m, k, n;
    }
    var ok;
    ok, m, n := CopyValue(s, from, buffer, n0);
    if !ok {
      return Failed, m, k, n;
    }
    var value := buffer[n0..n - 1];
    assert value == buffer[n0..n][..n - 1 - n0];
    assert value == Value(s[from..], false).value.0;
    var taken := Assign(k0, NameOf(next.key), value, allowEavesdrop);
    if taken.None? {
      return Failed, m, k, n;
    }
    AssignSpace(k0, NameOf(next.key), value, allowEavesdrop);
    return More, m, taken.value, n;
  }

  // match_parse_key() at a place in the text
  method ParseKeyAt(s: string, m: nat) returns (next: NextKey, from: nat)
    requires m <= |s|
    ensures next == ParseKey(s[m..])
    ensures next.Key? ==> m < from <= |s| && next.rest == s[from..]
  {
    hide ParseKey;
    var t := s[m..];
    next, from := ParseKey(t), 0;
    if next.Key? {
      from := |s| - |next.rest|;
      assert next.rest == t[from - m..];
      Suffix(s, m, from - m);
    }
  }

  lemma Suffix(s: string, m: nat, n: nat)
    requires m + n <= |s|
    ensures s[m..][n..] == s[m + n..]
  {
  }

  // match_keys_parse() into a buffer of strlen() + 1 bytes; n is what is used of it
  method ParseKeys(s: string, allowEavesdrop: bool) returns (r: Option<RuleKeys>, n: nat)
    requires Terminated(s)
    ensures r == ParseRule(EMPTY, s, allowEavesdrop)
    ensures n <= |s| + 1
    ensures r.Some? ==> KeysSpace(r.value) <= n
  {
    hide KeysSpace;
    hide ParseRule;
    var buffer := new char[|s| + 1];
    var m: nat, k: RuleKeys := 0, EMPTY;
    n := 0;
    EmptySpace();
    assert s[0..] == s;
    while true
      invariant m <= |s| && n <= |s| + 1 && (m < |s| ==> n <= m) && KeysSpace(k) <= n
      invariant ParseRule(k, s[m..], allowEavesdrop) == ParseRule(EMPTY, s, allowEavesdrop)
      decreases |s| - m
    {
      var progress;
      progress, m, k, n := ParsePair(s, m, k, allowEavesdrop, buffer, n);
      if progress == End {
        return Some(k), n;
      } else if progress == Failed {
        return None, n;
      }
    }
  }

  lemma EmptySpace()
    ensures KeysSpace(EMPTY) == 0
  {
    ArgsSpaceNone(MAX_ARGS);
  }

  // ---------------------------------------------------------------- clones

  // match_keys_clone(): an equal copy that fits a buffer of the size of the old one
  method Clone(from: RuleKeys, nBuffer: nat) returns (k: RuleKeys, n: nat)
    requires KeysSpace(from) <= nBuffer
    ensures k == from && n == KeysSpace(from) <= nBuffer
  {
    var args, nArgs := CloneArgs(from.args, from.nArgs);
    var argPaths, nPaths := CloneArgs(from.argPaths, from.nArgPaths);
    n := Space(from.iface) + Space(from.member) + Space(from.path) + nArgs + nPaths;
    n := n + Space(from.destination) + Space(from.sender) + Space(from.pathNamespace) + Space(from.arg0Namespace);
    k := Keys(from.msgType, from.senderId, from.iface, from.member, from.path, args, from.nArgs, argPaths,
      from.nArgPaths,
              from.destination, from.sender, from.pathNamespace, from.arg0Namespace);
  }

  // the loop over an array of arguments, which stops after the last one that is there
  method CloneArgs(args: seq<Option<string>>, n: nat) returns (r: seq<Option<string>>, space: nat)
    requires ArgsShape(args, n)
    ensures r == args && space == ArgsSpace(args)
  {
    r := seq(MAX_ARGS, _ => None);
    space := 0;
    for i := 0 to n
      invariant |r| == MAX_ARGS && forall j :: 0 <= j < MAX_ARGS ==> r[j] == if j < i then args[j] else None
      invariant space == ArgsSpace(args[..i])
    {
      assert args[..i + 1][..i] == args[..i];
      if args[i].Some? {
        r := r[i := args[i]];
        space := space + |args[i].value| + 1;
      }
    }
    assert r == args;
    NoMoreSpace(args, n);
  }

  lemma {:induction false} NoMoreSpace(args: seq<Option<string>>, n: nat)
    requires n <= |args| && forall i :: n <= i < |args| ==> args[i].None?
    ensures ArgsSpace(args) == ArgsSpace(args[..n])
  {
    if n < |args| {
      NoMoreSpace(args[..|args| - 1], n);
      assert args[..|args| - 1][..n] == args[..n];
    } else {
      assert args[..n] == args;
    }
  }

  // ---------------------------------------------------------------- writing rules

  datatype Pair = Pair(key: string, value: string)

  predicate WritablePair(p: Pair) {
    && p.key != "" && Terminated(p.key) && Terminated(p.value)
    && forall i :: 0 <= i < |p.key| ==> p.key[i] !in SEPARATORS
  }

  predicate Writable(pairs: seq<Pair>) {
    forall i :: 0 <= i < |pairs| ==> WritablePair(pairs[i])
  }

  function Write(pairs: seq<Pair>): string {
    if pairs == [] then ""
    else pairs[0].key + "=" + (Quote(pairs[0].value) + if |pairs| == 1 then "" else "," + Write(pairs[1..]))
  }

  function AssignAll(k: RuleKeys, pairs: seq<Pair>, allowEavesdrop: bool): Option<RuleKeys>
    decreases |pairs|
  {
    if pairs == [] then Some(k)
    else
      match Assign(k, NameOf(pairs[0].key), pairs[0].value, allowEavesdrop)
      case None => None
      case Some(k') => AssignAll(k', pairs[1..], allowEavesdrop)
  }

  lemma {:induction false} SpanOf(key: string, rest: string)
    requires (forall i :: 0 <= i < |key| ==> key[i] !in SEPARATORS) && rest != "" && rest[0] in SEPARATORS
    ensures Span(key + rest, SEPARATORS) == |key|
  {
    if key != "" {
      SpanOf(key[1..], rest);
      assert (key + rest)[1..] == key[1..] + rest;
    } else {
      assert key + rest == rest;
    }
  }

  lemma NothingSkipped(s: string, chars: string)
    requires s != "" && s[0] !in chars
    ensures Skip(s, chars) == s
  {
  }

  lemma ParseKeyParts(s: string, n: nat, u: string)
    requires s != "" && s[0] !in SEPARATORS && Span(s, SEPARATORS) == n < |s|
    requires s[n..] == u && u[0] == '='
    ensures ParseKey(s) == Key(s[..n], u[1..])
  {
    NothingSkipped(s, SEPARATORS);
    NothingSkipped(u, BLANKS);
    hide Skip;
    hide Span;
    hide EndOf;
  }

  lemma ParseWrittenKey(key: string, rest: string)
    requires key != "" && forall i :: 0 <= i < |key| ==> key[i] !in SEPARATORS
    ensures ParseKey(key + "=" + rest) == Key(key, rest)
  {
    var s, u := key + "=" + rest, "=" + rest;
    assert s == key + u && s[..|key|] == key && s[|key|..] == u && u[1..] == rest;
    assert s[0] == key[0];
    SpanOf(key, u);
    hide ParseKey;
    ParseKeyParts(s, |key|, u);
  }

  lemma {:induction false} QuotedTerminated(v: string)
    requires Terminated(v)
    ensures Terminated(Quoted(v)) && Terminated(Quote(v))
  {
    if v != "" {
      assert forall i :: 1 <= i < |v| ==> v[1..][i - 1] == v[i];
      QuotedTerminated(v[1..]);
    }
  }

  lemma {:induction false} WriteTerminated(pairs: seq<Pair>)
    requires Writable(pairs)
    ensures Terminated(Write(pairs))
  {
    if pairs != [] {
      QuotedTerminated(pairs[0].value);
      WriteTerminated(pairs[1..]);
    }
  }

  lemma QuoteBeforeTail(v: string, tail: string, more: string)
    requires tail == "," + more || (tail == "" && more == "")
    ensures Value(Quote(v) + tail, false) == Some((v, more))
  {
    QuoteReadsBack(v, more);
    hide Value;
    hide Quote;
    assert Quote(v) + "" == Quote(v) && Quote(v) + "," + more == Quote(v) + ("," + more);
  }

  // one pair in front of what follows its comma
  lemma ParseWrittenPair(k: RuleKeys, p: Pair, tail: string, more: string, allowEavesdrop: bool)
    requires WritablePair(p) && (tail == "," + more || (tail == "" && more == ""))
    requires Terminated(p.key + "=" + (Quote(p.value) + tail)) && Terminated(more)
    ensures ParseRule(k, p.key + "=" + (Quote(p.value) + tail), allowEavesdrop) ==
      var taken := Assign(k, NameOf(p.key), p.value, allowEavesdrop);
      if taken.None? then None else ParseRule(taken.value, more, allowEavesdrop)
  {
    hide Value;
    hide Quote;
    hide Assign;
    hide NameOf;
    hide ParseKey;
    hide ParseRule;
    ParseWrittenKey(p.key, Quote(p.value) + tail);
    QuoteBeforeTail(p.value, tail, more);
    ParseRuleStep(k, p.key + "=" + (Quote(p.value) + tail), allowEavesdrop);
  }

  lemma WriteFirst(pairs: seq<Pair>)
    requires pairs != []
    ensures var more := Write(pairs[1..]); var tail := if |pairs| == 1 then "" else "," + more;
      && Write(pairs) == pairs[0].key + "=" + (Quote(pairs[0].value) + tail)
      && (|pairs| == 1 ==> more == "")
  {
  }

  // Parsing a written rule assigns its pairs one after the other, whatever their values are.
  lemma {:induction false} ParseWritten(k: RuleKeys, pairs: seq<Pair>, allowEavesdrop: bool)
    requires Writable(pairs)
    ensures Terminated(Write(pairs))
    ensures ParseRule(k, Write(pairs), allowEavesdrop) == AssignAll(k, pairs, allowEavesdrop)
    decreases |pairs|
  {
    WriteTerminated(pairs);
    if pairs == [] {
      assert ParseKey("") == EndOfRule;
    } else {
      WriteTerminated(pairs[1..]);
      WriteFirst(pairs);
      hide Write;
      hide Quote;
      hide Assign;
      hide NameOf;
      hide ParseRule;
      hide Terminated;
      var p, more := pairs[0], Write(pairs[1..]);
      ParseWrittenPair(k, p, if |pairs| == 1 then "" else "," + more, more, allowEavesdrop);
      var taken := Assign(k, NameOf(p.key), p.value, allowEavesdrop);
      if taken.Some? {
        ParseWritten(taken.value, pairs[1..], allowEavesdrop);
      }
    }
  }
}
