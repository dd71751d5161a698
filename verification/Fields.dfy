/**
 The array of header fields of a D-Bus message, a(yv) in the wire format ("Marshaling" in the
 D-Bus Specification). Fields start at multiples of 8 bytes, so their bytes do not depend on
 where in the array they stand. How long a field is can be read from the field itself; the
 results hold for every reader of fields that looks no further.
 */
module Fields {
  import opened Base
  import opened Bytes

  // one field without the padding after it
  type Field = seq<Byte>

  // the number of bytes of the first field
  type Reader = seq<Byte> -> Option<nat>

  // every field padded, also the last
  function MarshalPadded(fields: seq<Field>): (s: seq<Byte>)
    ensures |s| % 8 == 0
  {
    if fields == [] then [] else Padded(fields[0]) + MarshalPadded(fields[1..])
  }

  // The array ends with its last field; padding stands only between fields.
  function Marshal(fields: seq<Field>): seq<Byte> {
    if fields == [] then []
    else MarshalPadded(fields[..|fields| - 1]) + fields[|fields| - 1]
  }

  lemma {:induction false} MarshalPaddedConcat(a: seq<Field>, b: seq<Field>)
    ensures MarshalPadded(a + b) == MarshalPadded(a) + MarshalPadded(b)
  {
    if a == [] {
      assert a + b == b;
    } else {
      assert (a + b)[1..] == a[1..] + b;
      MarshalPaddedConcat(a[1..], b);
    }
  }

  lemma PaddedAlone(f: Field)
    ensures MarshalPadded([f]) == Padded(f)
  {
    hide Padded;
    assert MarshalPadded([f]) == Padded(f) + [];
  }

  lemma PaddedMarshal(fields: seq<Field>)
    ensures Padded(Marshal(fields)) == MarshalPadded(fields)
    ensures |MarshalPadded(fields)| == Align8(|Marshal(fields)|)
  {
    if fields != [] {
      var front, last := fields[..|fields| - 1], fields[|fields| - 1];
      assert fields == front + [last];
      MarshalPaddedConcat(front, [last]);
      hide Padded;
      PaddedAfter(MarshalPadded(front), last);
      PaddedAlone(last);
    }
  }

  lemma MarshalFirst(fields: seq<Field>)
    requires |fields| > 1
    ensures Marshal(fields) == Padded(fields[0]) + Marshal(fields[1..])
  {
    assert fields[..|fields| - 1][1..] == fields[1..][..|fields| - 2];
  }

  predicate AllZero(s: seq<Byte>) {
    forall i :: 0 <= i < |s| ==> s[i] == '\0'
  }

  // Reading the array field by field
  function Parse(read: Reader, s: seq<Byte>): Option<seq<Field>> {
    if s == [] then Some([])
    else
      match read(s)
      case None => None
      case Some(n) =>
        if n == 0 || n > |s| then None
        else if n == |s| then Some([s])
        else if Align8(n) >= |s| || !AllZero(s[n..Align8(n)]) then None
        else
          Prepended(s[..n], Parse(read, s[Align8(n)..]))
  }

  // The reader recognises the field, whatever follows it.
  ghost predicate Delimits(read: Reader, field: Field) {
    field != [] && forall tail: seq<Byte> :: read(field + tail) == Some(|field|)
  }

  function Prepended(f: Field, rest: Option<seq<Field>>): Option<seq<Field>> {
    if rest.None? then None else Some([f] + rest.value)
  }

  lemma ParseFirst(read: Reader, f: Field, rest: seq<Byte>)
    requires Delimits(read, f)
    ensures rest == [] ==> Parse(read, f) == Some([f])
    ensures rest != [] ==> Parse(read, Padded(f) + rest) == Prepended(f, Parse(read, rest))
  {
    var s, tail := Padded(f) + rest, Zeros(Align8(|f|) - |f|) + rest;
    assert s == f + tail && f + [] == f;
    assert read(f + tail) == Some(|f|) && read(f + []) == Some(|f|);
    assert s[Align8(|f|)..] == rest && s[..|f|] == f;
  }

  // What was marshalled is read back.
  lemma {:induction false} ParseMarshal(read: Reader, fields: seq<Field>)
    requires forall f :: f in fields ==> Delimits(read, f)
    ensures Parse(read, Marshal(fields)) == Some(fields)
    ensures fields != [] ==> Marshal(fields) != []
  {
    if fields != [] {
      var f := fields[0];
      assert Delimits(read, f);
      hide Parse;
      hide Delimits;
      if |fields| == 1 {
        assert Marshal(fields) == f && [f] == fields;
        ParseFirst(read, f, []);
        FieldNotEmpty(read, f);
      } else {
        MarshalFirst(fields);
        ParseMarshal(read, fields[1..]);
        ParseFirst(read, f, Marshal(fields[1..]));
        assert [f] + fields[1..] == fields;
      }
    }
  }

  lemma FieldNotEmpty(read: Reader, f: Field)
    requires Delimits(read, f)
    ensures f != []
  {
  }

  // What was read is all that was there.
  lemma {:induction false} MarshalParse(read: Reader, s: seq<Byte>)
    requires Parse(read, s).Some?
    ensures Marshal(Parse(read, s).value) == s
    ensures forall f :: f in Parse(read, s).value ==> f != []
    decreases |s|
  {
    if s != [] && read(s).value < |s| {
      var n := read(s).value;
      MarshalParse(read, s[Align8(n)..]);
      var fields := Parse(read, s).value;
      assert fields[1..] == Parse(read, s[Align8(n)..]).value;
      assert fields[1..] != [];
      MarshalFirst(fields);
      assert Padded(s[..n]) == s[..Align8(n)];
    }
  }

  // ---------------------------------------------------------------- fields of basic types

  const FIELD_SENDER: Byte := 7 as char

  // (y<s>)
  function StringField(code: Byte, text: seq<Byte>, big: bool): (f: Field)
    requires |text| < 0x1_0000_0000
    ensures |f| == |text| + 9
  {
    [code, '\U{01}', 's', '\0'] + WordBytes(|text|, big) + text + ['\0']
  }

  // the size of a value of a fixed type, which is also its alignment
  function FixedSize(t: Byte): Option<nat> {
    if t == 'y' then Some(1)
    else if t == 'n' || t == 'q' then Some(2)
    else if t == 'b' || t == 'i' || t == 'u' || t == 'h' then Some(4)
    else if t == 'x' || t == 't' || t == 'd' then Some(8)
    else None
  }

  // a reader of fields whose variant holds a value of one basic type
  function ReadBasic(big: bool): Reader {
    (s: seq<Byte>) => BasicLength(s, big)
  }

  function BasicLength(s: seq<Byte>, big: bool): Option<nat> {
    if |s| < 5 || s[1] != '\U{01}' || s[3] != '\0' then None
    else if s[2] == 's' || s[2] == 'o' then
      if |s| < 8 then None
      else
        var n := 8 + Word(s[4..8], big);
        if n < |s| && s[n] == '\0' then Some(n + 1) else None
    else if s[2] == 'g' then
      var n := 5 + s[4] as int;
      if n < |s| && s[n] == '\0' then Some(n + 1) else None
    else
      match FixedSize(s[2])
      case None => None
      case Some(size) =>
        var n := (if size == 8 then 8 else 4) + size;
        if n <= |s| then Some(n) else None
  }

  // A value of a fixed type stands behind the signature, eight bytes of it on the next multiple of eight.
  lemma FixedFieldDelimits(code: Byte, t: Byte, value: seq<Byte>, big: bool)
    requires if t == 'y' then |value| == 1 else if t in "nq" then |value| == 2
             else if t in "biuh" then |value| == 4 else t in "xtd" && |value| == 8
    ensures Delimits(ReadBasic(big),
      [code, '\U{01}', t, '\0'] + (if |value| == 8 then ['\0', '\0', '\0', '\0'] else []) + value)
  {
    var f := [code, '\U{01}', t, '\0'] + (if |value| == 8 then ['\0', '\0', '\0', '\0'] else []) + value;
    assert f[2] == t && |f| == (if |value| == 8 then 8 else 4) + |value|;
    BasicDelimits(f, big);
  }

  // Strings and object paths have their length in front, signatures a single byte of it; all end with NUL.
  lemma TextFieldDelimits(code: Byte, t: Byte, text: seq<Byte>, big: bool)
    requires t in "so" && |text| < 0x1_0000_0000
    ensures Delimits(ReadBasic(big), [code, '\U{01}', t, '\0'] + WordBytes(|text|, big) + text + ['\0'])
  {
    var f := [code, '\U{01}', t, '\0'] + WordBytes(|text|, big) + text + ['\0'];
    assert f[4..8] == WordBytes(|text|, big) && f[2] == t;
    BasicDelimits(f, big);
  }

  lemma SignatureFieldDelimits(code: Byte, text: seq<Byte>, big: bool)
    requires |text| < 256
    ensures Delimits(ReadBasic(big), [code, '\U{01}', 'g', '\0', ToByte(|text|)] + text + ['\0'])
  {
    var f := [code, '\U{01}', 'g', '\0', ToByte(|text|)] + text + ['\0'];
    assert f[2] == 'g' && f[4] as int == |text|;
    BasicDelimits(f, big);
  }

  // The reader looks no further than the field.
  lemma BasicLengthLocal(s: seq<Byte>, big: bool, tail: seq<Byte>)
    requires BasicLength(s, big).Some?
    ensures 0 < BasicLength(s, big).value <= |s|
    ensures BasicLength(s[..BasicLength(s, big).value] + tail, big) == BasicLength(s, big)
  {
    var n := BasicLength(s, big).value;
    var t := s[..n] + tail;
    assert forall i :: 0 <= i < n ==> t[i] == s[i];
    if s[2] == 's' || s[2] == 'o' {
      assert t[4..8] == s[4..8];
    }
  }

  lemma BasicDelimits(s: seq<Byte>, big: bool)
    requires BasicLength(s, big) == Some(|s|)
    ensures Delimits(ReadBasic(big), s)
  {
    forall tail: seq<Byte> ensures ReadBasic(big)(s + tail) == Some(|s|) {
      BasicLengthLocal(s, big, tail);
      assert s[..|s|] == s;
    }
  }

  lemma StringFieldDelimits(code: Byte, text: seq<Byte>, big: bool)
    requires |text| < 0x1_0000_0000
    ensures Delimits(ReadBasic(big), StringField(code, text, big))
  {
    var f := StringField(code, text, big);
    assert f[4..8] == WordBytes(|text|, big);
    BasicDelimits(f, big);
  }

  // Whatever the reader finds in an array, it would find anywhere.
  lemma {:induction false} ParsedDelimits(big: bool, s: seq<Byte>)
    requires Parse(ReadBasic(big), s).Some?
    ensures forall f :: f in Parse(ReadBasic(big), s).value ==> Delimits(ReadBasic(big), f)
    decreases |s|
  {
    if s != [] {
      var n := BasicLength(s, big).value;
      BasicLengthLocal(s, big, []);
      assert s[..n] + [] == s[..n];
      BasicDelimits(s[..n], big);
      assert s[..|s|] == s;
      if n < |s| {
        ParsedDelimits(big, s[Align8(n)..]);
      }
    }
  }
}
