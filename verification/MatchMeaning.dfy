/**
 What the text of a match rule means: which key assigns what, and which messages a rule that was
 written down matches in the end (src/bus/match.c).
 */
module MatchMeaning {
  import opened Base
  import opened MatchKeys
  import opened MatchText
  import Address

  // ---------------------------------------------------------------- keys and what they assign

  lemma KeyNames()
    ensures NameOf("type") == Type && NameOf("sender") == Sender && NameOf("destination") == Destination
    ensures NameOf("interface") == Interface && NameOf("member") == Member && NameOf("path") == Path
    ensures NameOf("path_namespace") == PathNamespace && NameOf("eavesdrop") == Eavesdrop
    ensures NameOf("arg0namespace") == Arg0Namespace
  {
  }

  // no digits mean argument 0
  lemma BareArg()
    ensures NameOf("arg") == ArgKey(0, "") && NameOf("argpath") == ArgKey(0, "path")
  {
    assert "argpath"[3..] == "path" && "arg"[3..] == "";
  }

  // arg0 to arg99, of which Assign takes those below 64
  lemma ArgNames(i: nat, suffix: string)
    requires i < 100 && suffix in {"", "path"}
    ensures NameOf("arg" + Address.Decimal(i) + suffix) == ArgKey(i, suffix)
  {
    var digits := Address.Decimal(i);
    var key, rest := "arg" + digits + suffix, digits + suffix;
    assert key[..3] == "arg" && key[3..] == rest;
    if i < 10 {
      assert digits == [('0' as int + i) as char];
      assert rest[1..] == suffix;
    } else {
      assert Address.Decimal(i / 10) == [('0' as int + i / 10) as char];
      assert digits == [('0' as int + i / 10) as char, ('0' as int + i % 10) as char];
      assert rest[2..] == suffix;
    }
    assert ArgIndex(rest) == (i, suffix);
    assert key != "arg0namespace" by {
      assert |suffix| == 0 || |suffix| == 4;
    }
    assert key[0] == 'a' && key[1] == 'r' && key[2] == 'g';
  }

  // Each key sets one field, once; every other field stays.
  lemma AssignIs(k: RuleKeys, v: string, e: bool)
    ensures var t := if v == "method_call" then 1 else if v == "method_return" then 2
                     else if v == "error" then 3 else if v == "signal" then 4 else 0;
      Assign(k, NameOf("type"), v, e) == if k.msgType == 0 && t > 0 then Some(k.(msgType := t)) else None
    ensures var id := match Address.FromString(v) case Id(n) => Some(n) case _ => None;
      Assign(k, NameOf("sender"), v, e) ==
      if k.sender.None? && Address.ValidName(v) then Some(k.(sender := Some(v), senderId := id)) else None
    ensures Assign(k, NameOf("destination"), v, e) ==
      if k.destination.None? && Address.ValidName(v) then Some(k.(destination := Some(v))) else None
    ensures Assign(k, NameOf("interface"), v, e) ==
      if k.iface.None? && ValidInterface(v) then Some(k.(iface := Some(v))) else None
    ensures Assign(k, NameOf("member"), v, e) ==
      if k.member.None? && ValidMember(v) then Some(k.(member := Some(v))) else None
    ensures Assign(k, NameOf("path"), v, e) ==
      if k.path.None? && k.pathNamespace.None? && ValidPath(v) then Some(k.(path := Some(v))) else None
    ensures Assign(k, NameOf("path_namespace"), v, e) ==
      if k.path.None? && k.pathNamespace.None? && ValidPath(v) then Some(k.(pathNamespace := Some(v))) else None
    ensures Assign(k, NameOf("eavesdrop"), v, e) == if e && v in {"true", "false"} then Some(k) else None
    ensures Assign(k, NameOf("arg0namespace"), v, e) ==
      if k.arg0Namespace.None? && k.args[0].None? && k.argPaths[0].None? && ValidNamespace(v)
      then Some(k.(arg0Namespace := Some(v))) else None
  {
    KeyNames();
    hide NameOf;
    hide ValidInterface;
    hide ValidMember;
    hide ValidPath;
    hide ValidNamespace;
    hide Address.ValidName;
    hide Address.FromString;
  }

  // An argument takes one key, argN or argNpath, and the first none beside arg0namespace.
  lemma AssignArgIs(k: RuleKeys, i: nat, v: string, e: bool)
    requires i < 100
    ensures var free := i < 64 && k.args[i].None? && k.argPaths[i].None? && (i == 0 ==> k.arg0Namespace.None?);
      && Assign(k, NameOf("arg" + Address.Decimal(i)), v, e) ==
         (if free then Some(k.(args := k.args[i := Some(v)], nArgs := Max(k.nArgs, i + 1))) else None)
      && Assign(k, NameOf("arg" + Address.Decimal(i) + "path"), v, e) ==
         (if free then Some(k.(argPaths := k.argPaths[i := Some(v)], nArgPaths := Max(k.nArgPaths, i + 1))) else None)
  {
    ArgNames(i, "");
    ArgNames(i, "path");
    assert "arg" + Address.Decimal(i) + "" == "arg" + Address.Decimal(i);
    hide NameOf;
  }

  // ---------------------------------------------------------------- what a rule matches

  // what one pair asks of a message
  predicate Asks(key: KeyName, v: string, m: MessageMetadata) {
    match key
    case Type => m.msgType == MessageType(v)
    case Sender => Address.FromString(v).Id? ==> m.senderId == Some(Address.FromString(v).id)
    case Destination | Eavesdrop => true
    case Interface => m.iface == Some(v)
    case Member => m.member == Some(v)
    case Path => m.path == Some(v)
    case PathNamespace => InNamespace(m.path, v, '/')
    case Arg0Namespace => m.args[0].element == 's' && InNamespace(m.args[0].value, v, '.')
    case ArgKey(i, suffix) =>
      && i < m.nArgs
      && if suffix == "" then m.args[i] == Arg('s', Some(v)) else PathsRelated(m.args[i].value, v)
    case Unknown => false
  }

  // One more pair narrows a rule down to the messages that also meet this pair.
  lemma PairNarrows(k: RuleKeys, key: KeyName, v: string, e: bool, m: MessageMetadata)
    requires Assign(k, key, v, e).Some?
    ensures Matches(Assign(k, key, v, e).value, m) <==> Matches(k, m) && Asks(key, v, m)
  {
    if key.ArgKey? {
      ArgNarrows(k, key.index, key.suffix, v, m);
    } else {
      hide ArgsMatch;
      hide InNamespace;
      SameArgs(k, Assign(k, key, v, e).value, m);
    }
  }

  lemma SameArgs(k: RuleKeys, k': RuleKeys, m: MessageMetadata)
    ensures k.args == k'.args && k.argPaths == k'.argPaths ==> (ArgsMatch(k, m) <==> ArgsMatch(k', m))
  {
  }

  lemma ArgNarrows(k: RuleKeys, i: nat, suffix: string, v: string, m: MessageMetadata)
    requires AssignArg(k, i, suffix, v).Some?
    ensures Matches(AssignArg(k, i, suffix, v).value, m) <==> Matches(k, m) && Asks(ArgKey(i, suffix), v, m)
  {
    var k' := AssignArg(k, i, suffix, v).value;
    hide PathsRelated;
    hide InNamespace;
    assert ArgsMatch(k', m) <==>
      ArgsMatch(k, m) && if suffix == "" then m.args[i] == Arg('s', Some(v)) else PathsRelated(m.args[i].value, v) by {
      if ArgsMatch(k', m) {
        assert k'.args[i].Some? || k'.argPaths[i].Some?;
        forall j | 0 <= j < MAX_ARGS ensures k.args[j].Some? ==> k'.args[j] == k.args[j] {
        }
        forall j | 0 <= j < MAX_ARGS ensures k.argPaths[j].Some? ==> k'.argPaths[j] == k.argPaths[j] {
        }
      }
    }
    hide ArgsMatch;
  }

  // A rule matches exactly the messages that meet all of its pairs.
  lemma {:induction false} PairsNarrow(k: RuleKeys, pairs: seq<Pair>, e: bool, m: MessageMetadata)
    requires AssignAll(k, pairs, e).Some?
    ensures Matches(AssignAll(k, pairs, e).value, m) <==>
      Matches(k, m) && forall p :: p in pairs ==> Asks(NameOf(p.key), p.value, m)
    decreases |pairs|
  {
    if pairs != [] {
      var p := pairs[0];
      PairNarrows(k, NameOf(p.key), p.value, e, m);
      PairsNarrow(Assign(k, NameOf(p.key), p.value, e).value, pairs[1..], e, m);
      assert pairs == [p] + pairs[1..];
    }
  }

  // From the text to the messages: the rule as it was written is the rule that is applied.
  lemma WrittenRuleMatches(pairs: seq<Pair>, e: bool, m: MessageMetadata)
    requires Writable(pairs)
    ensures Terminated(Write(pairs))
    ensures var k := ParseRule(EMPTY, Write(pairs), e);
      k.Some? ==> (Matches(k.value, m) <==> forall p :: p in pairs ==> Asks(NameOf(p.key), p.value, m))
  {
    ParseWritten(EMPTY, pairs, e);
    if AssignAll(EMPTY, pairs, e).Some? {
      PairsNarrow(EMPTY, pairs, e, m);
      MatchesIff(EMPTY, m);
    }
  }

  // ---------------------------------------------------------------- other ways to write a rule

  // Without apostrophes and commas, a value stands for itself, backslashes included.
  lemma {:induction false} PlainValue(v: string, more: string)
    requires '\'' !in v && ',' !in v
    ensures Value(v, false) == Some((v, "")) && Value(v + "," + more, false) == Some((v, more))
  {
    if v == "" {
      assert v + "," + more == "," + more && ("," + more)[1..] == more;
    } else {
      var s := v + "," + more;
      PlainValue(v[1..], more);
      assert forall i :: 0 <= i < |v[1..]| ==> v[1..][i] == v[i + 1];
      assert s[1..] == v[1..] + "," + more && s[0] == v[0] && [v[0]] + v[1..] == v;
      assert |v| > 1 ==> s[1] == v[1] && v[1] in v;
      assert |v| == 1 ==> s[1] == ',';
    }
  }

  // Blanks and stray equal signs in front of a key, and blanks behind it, do not matter.
  lemma SpacedKey(front: string, key: string, blanks: string, rest: string)
    requires forall c :: c in front ==> c in " \t\n\r="
    requires key != "" && forall c :: c in key ==> c !in " \t\n\r="
    requires forall c :: c in blanks ==> c in " \t\n\r"
    ensures ParseKey(front + key + blanks + "=" + rest) == Key(key, rest)
    ensures ParseKey(front) == EndOfRule
    ensures ParseKey(front + key + blanks) == InvalidKey
  {
    var u := "=" + rest;
    assert u[0] == '=' && u[1..] == rest;
    assert front + key + blanks + "=" + rest == front + (key + (blanks + u));
    assert front + key + blanks == front + (key + (blanks + "")) && front + "" == front;
    assert key[0] in key;
    SkipsAll(front, "", SEPARATORS);
    KeyThen(front, key, blanks, u);
    KeyThen(front, key, blanks, "");
    hide Skip;
    hide Span;
    hide EndOf;
  }

  // What comes behind a key and blanks is an equal sign, or a mistake.
  lemma JunkBehindKey(front: string, key: string, blanks: string, junk: string)
    requires forall c :: c in front ==> c in " \t\n\r="
    requires key != "" && forall c :: c in key ==> c !in " \t\n\r="
    requires blanks != "" && forall c :: c in blanks ==> c in " \t\n\r"
    requires junk != "" && junk[0] !in " \t\n\r="
    ensures ParseKey(front + key + blanks + junk) == InvalidKey
  {
    assert front + key + blanks + junk == front + (key + (blanks + junk));
    hide ParseKey;
    hide Skip;
    hide Span;
    KeyThen(front, key, blanks, junk);
  }

  lemma KeyThen(front: string, key: string, blanks: string, u: string)
    requires forall c :: c in front ==> c in SEPARATORS
    requires key != "" && forall c :: c in key ==> c !in SEPARATORS
    requires forall c :: c in blanks ==> c in BLANKS
    requires u == "" || u[0] == '=' || (blanks != "" && u[0] !in BLANKS)
    ensures ParseKey(front + (key + (blanks + u))) ==
      if u == "" || u[0] != '=' then InvalidKey else Key(key, u[1..])
  {
    var t, v := key + (blanks + u), blanks + u;
    assert key[0] in key && t[0] == key[0] && t[..|key|] == key && t[|key|..] == v;
    assert v != "" ==> v[0] in SEPARATORS by {
      assert blanks != "" ==> v[0] == blanks[0] && blanks[0] in blanks;
      assert blanks == "" ==> v == u;
    }
    SkipsAll(front, t, SEPARATORS);
    SkipsAll(blanks, u, BLANKS);
    SpanOfKey(key, v);
    hide Skip;
    hide Span;
    hide EndOf;
  }

  lemma {:induction false} SkipsAll(front: string, s: string, chars: string)
    requires forall c :: c in front ==> c in chars
    requires s != "" ==> s[0] !in chars
    ensures Skip(front + s, chars) == s
  {
    if front != "" {
      assert (front + s)[1..] == front[1..] + s && front[0] in front;
      assert forall c :: c in front[1..] ==> c in front;
      SkipsAll(front[1..], s, chars);
    } else {
      assert front + s == s;
    }
  }

  lemma {:induction false} SpanOfKey(key: string, rest: string)
    requires forall c :: c in key ==> c !in SEPARATORS
    requires rest != "" ==> rest[0] in SEPARATORS
    ensures Span(key + rest, SEPARATORS) == |key|
  {
    if key != "" {
      assert (key + rest)[1..] == key[1..] + rest && key[0] in key;
      assert forall c :: c in key[1..] ==> c in key;
      SpanOfKey(key[1..], rest);
    } else {
      assert key + rest == rest;
    }
  }

  // ---------------------------------------------------------------- valid values

  // An interface is like a well-known name without dashes. A namespace may be one element only.
  lemma InterfaceIff(s: string)
    ensures ValidInterface(s) <==>
      && |s| <= 255 && '.' in s && s[0] != '.' && s[|s| - 1] != '.'
      && (forall i :: 0 < i < |s| && s[i - 1] == '.' ==> s[i] != '.')
      && (forall i :: 0 <= i < |s| && s[i] != '.' ==>
            'a' <= s[i] <= 'z' || 'A' <= s[i] <= 'Z' || s[i] == '_' || '0' <= s[i] <= '9')
      && !('0' <= s[0] <= '9') && (forall i :: 0 < i < |s| && s[i - 1] == '.' ==> !('0' <= s[i] <= '9'))
  {
    Address.DottedIff(s, false, false, false, true);
    if s != "" {
      Address.PlacesFit(s, false, false);
    }
  }

  lemma NamespaceIff(s: string)
    requires s != "" ==> s[0] != ':'
    ensures ValidNamespace(s) <==>
      && 0 < |s| <= 255 && s[0] != '.' && s[|s| - 1] != '.'
      && (forall i :: 0 < i < |s| && s[i - 1] == '.' ==> s[i] != '.')
      && (forall i :: 0 <= i < |s| && s[i] != '.' ==>
            || 'a' <= s[i] <= 'z' || 'A' <= s[i] <= 'Z' || s[i] == '_' || s[i] == '-' || '0' <= s[i] <= '9')
      && !('0' <= s[0] <= '9') && (forall i :: 0 < i < |s| && s[i - 1] == '.' ==> !('0' <= s[i] <= '9'))
  {
    Address.DottedIff(s, true, false, true, true);
    if s != "" {
      Address.PlacesFit(s, true, false);
    }
  }

  // dbus_validate_member()
  method ValidateMember(s: string) returns (r: bool)
    ensures r <==> ValidMember(s)
    ensures r <==>
      && 0 < |s| <= 255 && !('0' <= s[0] <= '9')
      && forall i :: 0 <= i < |s| ==> 'a' <= s[i] <= 'z' || 'A' <= s[i] <= 'Z' || '0' <= s[i] <= '9' || s[i] == '_'
  {
    if |s| > 255 {
      return false;
    }
    var first := true;
    for i := 0 to |s|
      invariant first <==> i == 0
      invariant i > 0 ==> !('0' <= s[0] <= '9')
      invariant forall j :: 0 <= j < i ==>
        'a' <= s[j] <= 'z' || 'A' <= s[j] <= 'Z' || '0' <= s[j] <= '9' || s[j] == '_'
    {
      if !('a' <= s[i] <= 'z' || 'A' <= s[i] <= 'Z' || ('0' <= s[i] <= '9' && !first) || s[i] == '_') {
        return false;
      }
      first := false;
    }
    return !first;
  }
}
