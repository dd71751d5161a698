/** Peer addresses (src/dbus/address.c): unique ids ":1.<n>" and well-known names. */
module Address {
  import opened Base

  // ADDRESS_ID_INVALID
  const ID_INVALID: nat := 0xffff_ffff_ffff_ffff

  datatype Address = Other | Id(id: nat) | Name(name: string)

  predicate IsDigit(c: char) {
    '0' <= c <= '9'
  }

  function DigitValue(c: char): (d: nat)
    requires IsDigit(c)
    ensures d < 10
  {
    (c as int) - ('0' as int)
  }

  predicate AllDigits(s: string) {
    forall i :: 0 <= i < |s| ==> IsDigit(s[i])
  }

  function DecimalValue(s: string): nat
    requires AllDigits(s)
  {
    if s == [] then 0
    else DecimalValue(s[..|s| - 1]) * 10 + DigitValue(s[|s| - 1])
  }

  // strtoull(s, &end, 10) with the caller's demand that everything is consumed and
  // nothing overflows. A sign is accepted; blanks cannot occur in a validated bus name.
  function ParseUnsigned(s: string): Option<nat> {
    var digits := if s != [] && (s[0] == '-' || s[0] == '+') then s[1..] else s;
    if digits == [] || !AllDigits(digits) then None
    else
      var v := DecimalValue(digits);
      if v > ID_INVALID then None
      else if s[0] == '-' && v != 0 then Some(ID_INVALID + 1 - v)
      else Some(v)
  }

  // address_from_string()
  function FromString(s: string): Address {
    if s == "" then Other
    else if s[0] == ':' then
      if |s| < 3 || s[..3] != ":1." then Other
      else
        match ParseUnsigned(s[3..])
        case None => Other
        case Some(id) => if id == ID_INVALID then Other else Id(id)
    else Name(s)
  }

  function Decimal(n: nat): (s: string)
    ensures s != "" && AllDigits(s) && DecimalValue(s) == n
  {
    var digit := ('0' as int + n % 10) as char;
    if n < 10 then [digit] else Decimal(n / 10) + [digit]
  }

  // address_to_string() of an id
  function IdToString(id: nat): string {
    ":1." + Decimal(id)
  }

  // the id of a unique name
  function IdOf(n: string): nat {
    if |n| > 3 && AllDigits(n[3..]) then DecimalValue(n[3..]) else 0
  }

  lemma IdOfPrinted(id: nat)
    ensures IdOf(IdToString(id)) == id && IdToString(id) != "" && IdToString(id)[0] == ':'
  {
    assert IdToString(id)[3..] == Decimal(id);
  }

  // A unique name read back denotes the peer it was printed for.
  lemma IdRoundTrip(id: nat)
    requires id < ID_INVALID
    ensures FromString(IdToString(id)) == Id(id)
  {
    var s := IdToString(id);
    assert s[3..] == Decimal(id) && s[..3] == ":1.";
  }

  // Digits are read from left to right.
  lemma DecimalReads(s: string, d: char)
    requires AllDigits(s) && '0' <= d <= '9'
    ensures DecimalValue("") == 0
    ensures DecimalValue(s + [d]) == 10 * DecimalValue(s) + (d as int - '0' as int)
  {
    assert (s + [d])[..|s|] == s;
  }

  // What starts with a colon is an id in decimal digits behind ":1.", or nothing; all else is a name. A
  // sign is read as strtoull() does, modulo 2^64.
  lemma FromStringIs(s: string)
    ensures FromString(s).Name? <==> s != "" && s[0] != ':'
    ensures FromString(s).Name? ==> FromString(s).name == s
    ensures |s| > 3 && s[..3] == ":1." && AllDigits(s[3..]) ==>
      FromString(s) == if DecimalValue(s[3..]) < 0xffff_ffff_ffff_ffff then Id(DecimalValue(s[3..])) else Other
    ensures |s| > 4 && s[..3] == ":1." && s[3] == '+' && AllDigits(s[4..]) ==>
      FromString(s) == if DecimalValue(s[4..]) < 0xffff_ffff_ffff_ffff then Id(DecimalValue(s[4..])) else Other
    ensures |s| > 4 && s[..3] == ":1." && s[3] == '-' && AllDigits(s[4..]) && DecimalValue(s[4..]) > 0 ==>
      FromString(s) == if 1 < DecimalValue(s[4..]) <= 0xffff_ffff_ffff_ffff
                       then Id(0x1_0000_0000_0000_0000 - DecimalValue(s[4..])) else Other
    ensures FromString(s).Id? ==>
      && |s| > 3 && s[..3] == ":1." && FromString(s).id < 0xffff_ffff_ffff_ffff
      && (AllDigits(s[3..]) || (s[3] in "+-" && |s| > 4 && AllDigits(s[4..])))
  {
  }

  // dots separate elements of letters, digits (not in front, or anywhere) and some other characters
  predicate ValidDotted(s: string, dashes: bool, digitsFirst: bool, hasDot: bool, dot: bool) {
    if s == "" then hasDot && !dot
    else if s[0] == '.' then !dot && ValidDotted(s[1..], dashes, digitsFirst, true, true)
    else
      && ('a' <= s[0] <= 'z' || 'A' <= s[0] <= 'Z' || s[0] == '_' || (s[0] == '-' && dashes)
          || (IsDigit(s[0]) && (!dot || digitsFirst)))
      && ValidDotted(s[1..], dashes, digitsFirst, hasDot, false)
  }

  // the loop of dbus_validate_name() and its like, which keeps track of dots
  method ValidateDotted(s: string, dashes: bool, digitsFirst: bool, single: bool) returns (r: bool)
    ensures r <==> ValidDotted(s, dashes, digitsFirst, single, true)
  {
    var hasDot, dot := single, true;
    for i := 0 to |s|
      invariant ValidDotted(s, dashes, digitsFirst, single, true)
        <==> ValidDotted(s[i..], dashes, digitsFirst, hasDot, dot)
    {
      assert s[i..][1..] == s[i + 1..];
      if s[i] == '.' {
        if dot {
          return false;
        }
        hasDot, dot := true, true;
      } else if !('a' <= s[i] <= 'z' || 'A' <= s[i] <= 'Z' || (IsDigit(s[i]) && (!dot || digitsFirst))
                  || s[i] == '_' || (s[i] == '-' && dashes)) {
        return false;
      } else {
        dot := false;
      }
    }
    return hasDot && !dot;
  }

  // What may stand at place i; an element starts there if a dot or nothing (`dot`) is before it.
  predicate Fits(s: string, i: nat, dashes: bool, digitsFirst: bool, dot: bool)
    requires i < |s|
  {
    var starts := if i == 0 then dot else s[i - 1] == '.';
    if s[i] == '.' then !starts else IsPart(s[i], dashes, !starts || digitsFirst)
  }

  predicate IsPart(c: char, dash: bool, digit: bool) {
    'a' <= c <= 'z' || 'A' <= c <= 'Z' || c == '_' || (c == '-' && dash) || ('0' <= c <= '9' && digit)
  }

  // The same, seen from each place in the string
  lemma {:induction false} DottedIff(s: string, dashes: bool, digitsFirst: bool, hasDot: bool, dot: bool)
    ensures ValidDotted(s, dashes, digitsFirst, hasDot, dot) <==>
      && (hasDot || '.' in s)
      && (if s == "" then !dot else s[|s| - 1] != '.')
      && forall i :: 0 <= i < |s| ==> Fits(s, i, dashes, digitsFirst, dot)
  {
    if s != "" {
      var t, dot' := s[1..], s[0] == '.';
      DottedIff(t, dashes, digitsFirst, hasDot || dot', dot');
      assert Fits(s, 0, dashes, digitsFirst, dot) <==>
        if dot' then !dot else IsPart(s[0], dashes, !dot || digitsFirst);
      assert '.' in s <==> dot' || '.' in t;
      assert t != "" ==> t[|t| - 1] == s[|s| - 1];
      forall i | 0 <= i < |t|
        ensures Fits(t, i, dashes, digitsFirst, dot') <==> Fits(s, i + 1, dashes, digitsFirst, dot) {
        assert t[i] == s[i + 1] && (i > 0 ==> t[i - 1] == s[i]);
      }
      forall i | 1 <= i < |s|
        ensures Fits(s, i, dashes, digitsFirst, dot) <==> Fits(t, i - 1, dashes, digitsFirst, dot') {
        assert s[i] == t[i - 1];
      }
    }
  }

  // dbus_validate_name()
  predicate ValidName(s: string) {
    && |s| <= 255
    && if s != "" && s[0] == ':' then ValidDotted(s[1..], true, true, false, true)
       else ValidDotted(s, true, false, false, true)
  }

  // Behind the colon of a unique name there are two elements or more of letters, digits, '_' and '-'.
  lemma UniqueNameIff(t: string)
    ensures ValidName(":" + t) <==>
      && |t| < 255 && '.' in t && t[0] != '.' && t[|t| - 1] != '.'
      && (forall i :: 0 < i < |t| && t[i - 1] == '.' ==> t[i] != '.')
      && (forall i :: 0 <= i < |t| && t[i] != '.' ==>
            || 'a' <= t[i] <= 'z' || 'A' <= t[i] <= 'Z' || t[i] == '_' || t[i] == '-' || '0' <= t[i] <= '9')
  {
    assert (":" + t)[1..] == t;
    DottedIff(t, true, true, false, true);
    if t != "" {
      PlacesFit(t, true, true);
    }
  }

  // Any other name is the same, but no element starts with a digit.
  lemma NameIff(s: string)
    requires s != "" ==> s[0] != ':'
    ensures ValidName(s) <==>
      && |s| <= 255 && '.' in s && s[0] != '.' && s[|s| - 1] != '.'
      && (forall i :: 0 < i < |s| && s[i - 1] == '.' ==> s[i] != '.')
      && (forall i :: 0 <= i < |s| && s[i] != '.' ==>
            || 'a' <= s[i] <= 'z' || 'A' <= s[i] <= 'Z' || s[i] == '_' || s[i] == '-' || '0' <= s[i] <= '9')
      && !('0' <= s[0] <= '9') && (forall i :: 0 < i < |s| && s[i - 1] == '.' ==> !('0' <= s[i] <= '9'))
  {
    DottedIff(s, true, false, false, true);
    if s != "" {
      PlacesFit(s, true, false);
    }
  }

  lemma PlacesFit(s: string, dashes: bool, digitsFirst: bool)
    requires s != ""
    ensures (forall i :: 0 <= i < |s| ==> Fits(s, i, dashes, digitsFirst, true)) <==>
      && s[0] != '.' && (digitsFirst || !IsDigit(s[0]))
      && (forall i :: 0 < i < |s| && s[i - 1] == '.' ==> s[i] != '.')
      && (forall i :: 0 <= i < |s| && s[i] != '.' ==> IsPart(s[i], dashes, true))
      && (digitsFirst || forall i :: 0 < i < |s| && s[i - 1] == '.' ==> !IsDigit(s[i]))
  {
    if forall i :: 0 <= i < |s| ==> Fits(s, i, dashes, digitsFirst, true) {
      assert Fits(s, 0, dashes, digitsFirst, true);
      forall i | 0 < i < |s| && s[i - 1] == '.' ensures s[i] != '.' && (digitsFirst || !IsDigit(s[i])) {
        assert Fits(s, i, dashes, digitsFirst, true);
      }
      forall i | 0 <= i < |s| && s[i] != '.' ensures IsPart(s[i], dashes, true) {
        assert Fits(s, i, dashes, digitsFirst, true);
      }
    }
  }
}
