/**
 Messages (src/dbus/message.c): the size arithmetic of incoming headers, and the surgery that
 puts the sender into a header without rewriting it.
 */
module Message {
  import opened Base
  import opened Bytes
  import opened Fields
  import Address

  const HEADER_SIZE := 16
  const MESSAGE_SIZE_MAX := 0x800_0000
  const ADDRESS_ID_STRING_MAX := 24
  const PATCH_MAX := 40

  // ---------------------------------------------------------------- incoming headers

  datatype Frame =
    | Frame(bigEndian: bool, nHeader: nat, nBody: nat)
    | CorruptHeader
    | TooLarge

  function Size(f: Frame): nat
    requires f.Frame?
  {
    Align8(f.nHeader) + f.nBody
  }

  // the lengths that a header declares
  function FrameOf(h: seq<Byte>): (f: Frame)
    requires |h| == HEADER_SIZE
    ensures f.Frame? ==> HEADER_SIZE <= f.nHeader && Size(f) <= MESSAGE_SIZE_MAX
  {
    if h[0] != 'l' && h[0] != 'B' then CorruptHeader
    else
      var big := h[0] == 'B';
      var f := Frame(big, HEADER_SIZE + Word(h[12..16], big), Word(h[4..8], big));
      if Size(f) > MESSAGE_SIZE_MAX then TooLarge else f
  }

  // The header declares the size of its fields at byte 12, and that of the body at byte 4; fields are
  // padded to eight bytes, and the whole has 128 MiB at most.
  lemma FrameIs(h: seq<Byte>)
    requires |h| == 16
    ensures FrameOf(h) == CorruptHeader <==> h[0] != 'l' && h[0] != 'B'
    ensures h[0] == 'l' || h[0] == 'B' ==>
      var nFields, nBody := Word(h[12..16], h[0] == 'B'), Word(h[4..8], h[0] == 'B');
      var size := (16 + nFields + 7) / 8 * 8 + nBody;
      && (FrameOf(h) == TooLarge <==> size > 134217728)
      && (size <= 134217728 ==> FrameOf(h) == Frame(h[0] == 'B', 16 + nFields, nBody) && Size(FrameOf(h)) == size)
  {
  }

  // ---------------------------------------------------------------- messages

  // struct iovec: a piece of the message's own memory
  datatype IoVec =
    | Nothing
    | InData(from: nat, len: nat)
    | InPatch(len: nat)

  function Length(v: IoVec): nat {
    match v
    case Nothing => 0
    case InData(_, len) => len
    case InPatch(len) => len
  }

  // a whole message with these fields: 12 bytes, the length of the fields, the fields, the body
  function Canonical(fixed: seq<Byte>, fields: seq<Field>, body: seq<Byte>, big: bool): seq<Byte>
    requires |Marshal(fields)| < 0x1_0000_0000
  {
    fixed + WordBytes(|Marshal(fields)|, big) + Padded(Marshal(fields)) + body
  }

  function Joined(fixed: seq<Byte>, word: seq<Byte>, front: seq<Byte>, back: seq<Byte>, last: seq<Byte>,
    body: seq<Byte>): seq<Byte> {
    fixed + word + (front + back + last) + body
  }

  // all fields but the one at k, if any, and a sender at the end
  function WithSender(fields: seq<Field>, k: Option<nat>, sender: Field): seq<Field>
    requires k.Some? ==> k.value < |fields|
  {
    Others(fields, k) + [sender]
  }

  function Others(fields: seq<Field>, k: Option<nat>): seq<Field>
    requires k.Some? ==> k.value < |fields|
  {
    if k.None? then fields else fields[..k.value] + fields[k.value + 1..]
  }

  class Message {
    const bigEndian: bool
    const data: array<Byte>
    const patch: array<Byte>
    const nBody: nat
    var nHeader: nat
    var nData: nat
    var fds: Option<FdSet>
    var originalSender: Option<nat>   // where in the data the sender string starts
    var vecs: seq<IoVec>

    ghost predicate Valid()
      reads this, data, patch
    {
      && HEADER_SIZE <= nHeader
      && patch.Length == PATCH_MAX && patch != data
      && |vecs| == 4
      && InMemory(vecs[0]) && InMemory(vecs[1]) && InMemory(vecs[2]) && InMemory(vecs[3])
    }

    ghost predicate InMemory(v: IoVec)
      reads this
    {
      match v
      case Nothing => true
      case InData(from, len) => from + len <= data.Length
      case InPatch(len) => len <= patch.Length
    }

    // the bytes of a piece
    function Bytes(v: IoVec): (s: seq<Byte>)
      requires InMemory(v)
      reads this, data, patch
      ensures |s| == Length(v)
    {
      match v
      case Nothing => []
      case InData(from, len) => data[from..from + len]
      case InPatch(len) => patch[..len]
    }

    // the message as it is sent
    ghost function Wire(): seq<Byte>
      requires Valid()
      reads this, data, patch
    {
      Bytes(vecs[0]) + Bytes(vecs[1]) + Bytes(vecs[2]) + Bytes(vecs[3])
    }

    // what the output is given to send
    function Pieces(): seq<seq<Byte>>
      requires Valid()
      reads this, data, patch
    {
      [Bytes(vecs[0]), Bytes(vecs[1]), Bytes(vecs[2]), Bytes(vecs[3])]
    }

    // message_new_incoming() for a header that is neither corrupt nor too large
    constructor (h: seq<Byte>)
      requires |h| == HEADER_SIZE && FrameOf(h).Frame?
      ensures Valid() && fresh(data) && fresh(patch)
      ensures bigEndian == FrameOf(h).bigEndian && nHeader == FrameOf(h).nHeader && nBody == FrameOf(h).nBody
      ensures nData == data.Length == Size(FrameOf(h)) && data[..HEADER_SIZE] == h
      ensures fds.None? && originalSender.None?
      ensures vecs == [InData(0, Align8(nHeader)), Nothing, Nothing, InData(Align8(nHeader), nBody)]
    {
      var f := FrameOf(h);
      bigEndian, nHeader, nBody, nData := f.bigEndian, f.nHeader, f.nBody, Size(f);
      data := new Byte[Size(f)];
      patch := new Byte[PATCH_MAX];
      fds, originalSender := None, None;
      vecs := [InData(0, Align8(f.nHeader)), Nothing, Nothing, InData(Align8(f.nHeader), f.nBody)];
      new;
      forall i | 0 <= i < HEADER_SIZE {
        data[i] := h[i];
      }
      assert data[..HEADER_SIZE] == h;
    }

    // What message_parse_metadata() has established: the header is an array of fields, and the
    // only sender among them is the one whose string was remembered.
    ghost predicate Parsed(fields: seq<Field>, k: Option<nat>)
      reads this, data, patch
    {
      && Valid()
      && vecs == [InData(0, Align8(nHeader)), Nothing, Nothing, InData(Align8(nHeader), nBody)]
      && nHeader <= MESSAGE_SIZE_MAX && Align8(nHeader) + nBody <= data.Length && HasFields(data[..], nHeader, fields)
      && (k.Some? ==> k.value < |fields|) && SenderAt(fields, k, bigEndian)
      && originalSender == if k.None? then None else Some(FieldStart(fields, k.value) + 8)
    }

    // message_stitch_sender(): only the length of the fields is written to the old memory
    method StitchSender(senderId: nat, ghost fields: seq<Field>, ghost k: Option<nat>)
      requires Parsed(fields, k) && senderId <= Address.ID_INVALID
      modifies this`vecs, this`nHeader, this`nData, data, patch
      ensures Valid() && |UniqueName(senderId)| <= ADDRESS_ID_STRING_MAX
      ensures var fields' := WithSender(fields, k, StringField(FIELD_SENDER, UniqueName(senderId), bigEndian));
        && nHeader == HEADER_SIZE + |Marshal(fields')| < 0x1_0000_0000
        && Wire() == Canonical(old(data[..12]), fields', old(data[Align8(nHeader)..Align8(nHeader) + nBody]), bigEndian)
        && nData == |Wire()|
      ensures data[..12] == old(data[..12]) && data[HEADER_SIZE..] == old(data[HEADER_SIZE..])
    {
      hide Marshal;
      hide MarshalPadded;
      hide StringField;
      hide HasFields;
      hide SenderAt;
      hide Padded;
      hide Others;
      hide WithSender;
      hide WordBytes;
      hide Joined;
      hide Canonical;
      hide UniqueName;
      hide Message.Wire;
      hide Align8;
      UniqueNameLength(senderId);
      var sender := UniqueName(senderId);
      ghost var fixed, body := data[..12], data[Align8(nHeader)..Align8(nHeader) + nBody];
      ghost var front, back := Restitch(sender, fields, k);
      StitchedFields(fields, k, StringField(FIELD_SENDER, sender, bigEndian), fixed, front, back, body, bigEndian);
    }

    // the pieces around the cut, the new sender, and the lengths
    method Restitch(sender: seq<Byte>, ghost fields: seq<Field>, ghost k: Option<nat>)
      returns (ghost front: seq<Byte>, ghost back: seq<Byte>)
      requires Parsed(fields, k) && |sender| <= ADDRESS_ID_STRING_MAX
      modifies this`vecs, this`nHeader, this`nData, data, patch
      ensures Valid() && front + back == MarshalPadded(Others(fields, k))
      ensures nHeader == HEADER_SIZE + |front| + |back| + |sender| + 9 < 0x1_0000_0000
      ensures nData == Align8(nHeader) + nBody
      ensures Wire() == Joined(old(data[..12]), WordBytes(nHeader - HEADER_SIZE, bigEndian), front, back,
                               Padded(StringField(FIELD_SENDER, sender, bigEndian)),
                               old(data[Align8(nHeader)..Align8(nHeader) + nBody]))
      ensures |Wire()| == HEADER_SIZE + |front| + |back| + Align8(|sender| + 9) + nBody
      ensures data[..12] == old(data[..12]) && data[HEADER_SIZE..] == old(data[HEADER_SIZE..])
    {
      hide MarshalPadded;
      hide StringField;
      hide HasFields;
      hide SenderAt;
      hide Padded;
      hide Others;
      hide WordBytes;
      hide Joined;
      ghost var before := data[..];
      front, back := CutAndAppend(sender, fields, k);
      WriteLength();
      StitchedWire(before, Padded(StringField(FIELD_SENDER, sender, bigEndian)));
    }

    // the old sender goes, the new one comes; the fixed header still has the old length
    method CutAndAppend(sender: seq<Byte>, ghost fields: seq<Field>, ghost k: Option<nat>)
      returns (ghost front: seq<Byte>, ghost back: seq<Byte>)
      requires Parsed(fields, k) && |sender| <= ADDRESS_ID_STRING_MAX
      modifies this`vecs, this`nHeader, this`nData, patch
      ensures Valid() && front + back == MarshalPadded(Others(fields, k))
      ensures vecs[0].InData? && vecs[0].from == 0 && vecs[0].len >= HEADER_SIZE && BehindHeader(vecs[1])
      ensures front == data[..][HEADER_SIZE..vecs[0].len] && back == Slice(data[..], vecs[1])
      ensures vecs[2].InPatch? && patch[..vecs[2].len] == Padded(StringField(FIELD_SENDER, sender, bigEndian))
      ensures vecs[3] == InData(old(Align8(nHeader)), nBody)
      ensures nHeader == HEADER_SIZE + |front| + |back| + |sender| + 9 < 0x1_0000_0000
      ensures nData == Align8(nHeader) + nBody && data[..] == old(data[..])
    {
      hide MarshalPadded;
      hide StringField;
      hide HasFields;
      hide SenderAt;
      hide Padded;
      hide Others;
      CutSender(fields, k);
      front, back := data[..][HEADER_SIZE..vecs[0].len], Slice(data[..], vecs[1]);
      AppendSender(sender);
    }

    lemma StitchedWire(before: seq<Byte>, patched: seq<Byte>)
      requires Valid() && vecs[0].InData? && vecs[0].from == 0 && vecs[0].len >= HEADER_SIZE
      requires BehindHeader(vecs[1]) && BehindHeader(vecs[3]) && Bytes(vecs[2]) == patched
      requires HEADER_SIZE <= data.Length == |before|
      requires data[..12] == before[..12] && data[HEADER_SIZE..] == before[HEADER_SIZE..]
      ensures Wire() == Joined(before[..12], data[12..HEADER_SIZE], before[HEADER_SIZE..vecs[0].len],
                               Slice(before, vecs[1]), patched, Slice(before, vecs[3]))
      ensures |Wire()| == vecs[0].len + Length(vecs[1]) + Length(vecs[2]) + Length(vecs[3])
    {
      HeaderRest(before, data[..], vecs[1]);
      HeaderRest(before, data[..], vecs[3]);
      Assembled(before, data[..], vecs[0].len, Slice(before, vecs[1]), patched, Slice(before, vecs[3]));
    }

    // the old sender, if there is one, is cut out; the fields after it move to the second piece
    method CutSender(ghost fields: seq<Field>, ghost k: Option<nat>)
      requires Parsed(fields, k)
      modifies this`vecs
      ensures Valid() && vecs[2] == Nothing && vecs[3] == old(vecs[3])
      ensures vecs[0].InData? && vecs[0].from == 0 && vecs[0].len >= HEADER_SIZE
      ensures BehindHeader(vecs[1])
      ensures Length(vecs[0]) + Length(vecs[1]) <= Align8(nHeader)
      ensures data[..][HEADER_SIZE..vecs[0].len] + Slice(data[..], vecs[1]) == MarshalPadded(Others(fields, k))
    {
      hide MarshalPadded;
      hide HasFields;
      hide SenderAt;
      hide Align8;
      if originalSender.Some? {
        OthersPadded(fields, k.value);
        var field, next := FindSender(fields, k.value);
        var end := vecs[0].len;
        ghost var front, back := data[HEADER_SIZE..field], data[next..end];
        vecs := [InData(0, field), InData(next, end - next), vecs[2], vecs[3]];
        KeptAround(front, back);
      } else {
        HeaderPadded(data[..], nHeader, fields);
      }
    }

    lemma KeptAround(front: seq<Byte>, back: seq<Byte>)
      requires |vecs| == 4 && vecs[0].InData? && vecs[1].InData? && vecs[0].from == 0
      requires HEADER_SIZE <= vecs[0].len <= vecs[1].from <= vecs[1].from + vecs[1].len <= data.Length
      requires front == data[HEADER_SIZE..vecs[0].len]
      requires back == data[vecs[1].from..vecs[1].from + vecs[1].len]
      ensures data[..][HEADER_SIZE..vecs[0].len] + Slice(data[..], vecs[1]) == front + back
    {
    }

    // where the old sender field starts, and where the next one does
    method FindSender(ghost fields: seq<Field>, ghost i: nat) returns (field: nat, next: nat)
      requires Parsed(fields, Some(i))
      ensures HEADER_SIZE <= field <= next <= Align8(nHeader)
      ensures data[HEADER_SIZE..field] == MarshalPadded(fields[..i])
      ensures data[next..Align8(nHeader)] == MarshalPadded(fields[i + 1..])
    {
      hide *;
      SenderParts(fields, i);
      var n := StrLen(originalSender.value, fields[i]);
      field := originalSender.value - (1 + 3 + 4);
      var nField := 1 + 3 + 4 + n + 1;
      assert nField == |fields[i]|;
      next := field + Align8(nField);
      SenderEnds(fields, i, field, next);
    }

    // where the parts of the old sender lie
    lemma SenderParts(fields: seq<Field>, i: nat)
      requires Parsed(fields, Some(i))
      ensures i < |fields| && SenderField(fields[i], bigEndian) && 9 <= |fields[i]|
      ensures originalSender.Some? && originalSender.value >= HEADER_SIZE + 8 && HEADER_SIZE > 0
      ensures var field := originalSender.value - 8;
        field + |fields[i]| <= data.Length && data[field..field + |fields[i]|] == fields[i]
    {
      hide HasFields;
      hide MarshalPadded;
      hide Align8;
      hide StringField;
      HeaderCut(data[..], nHeader, fields, i);
      SlicesOf(data[..]);
    }

    lemma SenderEnds(fields: seq<Field>, i: nat, field: nat, next: nat)
      requires Parsed(fields, Some(i)) && originalSender.Some? && field == originalSender.value - 8
      requires i < |fields| && next == field + Align8(|fields[i]|)
      ensures HEADER_SIZE <= field <= next <= Align8(nHeader) <= data.Length
      ensures data[HEADER_SIZE..field] == MarshalPadded(fields[..i])
      ensures data[next..Align8(nHeader)] == MarshalPadded(fields[i + 1..])
    {
      hide HasFields;
      hide MarshalPadded;
      hide Align8;
      hide StringField;
      HeaderCut(data[..], nHeader, fields, i);
      SlicesOf(data[..]);
    }

    // the array and its contents have the same slices
    lemma SlicesOf(s: seq<Byte>)
      requires s == data[..]
      ensures forall a, b :: 0 <= a <= b <= |s| ==> s[a..b] == data[a..b]
    {
    }

    // the new sender, and the lengths that come with it
    method AppendSender(sender: seq<Byte>)
      requires Valid() && vecs[2] == Nothing && Length(vecs[0]) >= HEADER_SIZE && |sender| <= ADDRESS_ID_STRING_MAX
      modifies this`vecs, this`nHeader, this`nData, patch
      ensures Valid() && vecs == old(vecs)[2 := vecs[2]]
      ensures Bytes(vecs[2]) == Padded(StringField(FIELD_SENDER, sender, bigEndian)) && vecs[2].InPatch?
      ensures nHeader == Length(vecs[0]) + Length(vecs[1]) + |sender| + 9 && nData == Align8(nHeader) + nBody
    {
      var nField := 1 + 3 + 4 + |sender| + 1;
      var nStitch := Align8(nField);
      assert nStitch <= PATCH_MAX;
      hide StringField;
      hide Padded;
      FillPatch(sender, nStitch);
      vecs := vecs[2 := InPatch(nStitch)];
      nHeader := Length(vecs[0]) + Length(vecs[1]) + nField;
      nData := Align8(nHeader) + nBody;
    }

    // header->n_fields
    method WriteLength()
      requires HEADER_SIZE <= nHeader < 0x1_0000_0000 && HEADER_SIZE <= data.Length
      modifies data
      ensures data[..12] == old(data[..12]) && data[HEADER_SIZE..] == old(data[HEADER_SIZE..])
      ensures data[12..HEADER_SIZE] == WordBytes(nHeader - HEADER_SIZE, bigEndian)
    {
      hide WordBytes;
      Fill(data, 12, WordBytes(nHeader - HEADER_SIZE, bigEndian));
    }

    // the new field and its padding
    method FillPatch(sender: seq<Byte>, nStitch: nat)
      requires patch.Length == PATCH_MAX && nStitch == Align8(|sender| + 9) <= PATCH_MAX
      modifies patch
      ensures patch[..nStitch] == Padded(StringField(FIELD_SENDER, sender, bigEndian))
    {
      assert |sender| < 0x1_0000_0000 && nStitch >= |sender| + 9;
      hide *;
      var kind, length, text := [FIELD_SENDER, '\U{01}', 's', '\0'], WordBytes(|sender|, bigEndian), sender + ['\0'];
      var zeros := Zeros(nStitch - |sender| - 9);
      Fill(patch, 0, kind);
      Fill(patch, 4, length);
      Filled(kind, length);
      Fill(patch, 8, text);
      Filled(kind + length, text);
      Fill(patch, |sender| + 9, zeros);
      Filled(kind + length + text, zeros);
      PaddedSender(sender, bigEndian, nStitch);
    }

    lemma Filled(front: seq<Byte>, chunk: seq<Byte>)
      requires |front| + |chunk| <= patch.Length
      requires patch[..|front|] == front && patch[|front|..|front| + |chunk|] == chunk
      ensures patch[..|front| + |chunk|] == front + chunk
    {
    }

    // strlen() of the remembered sender
    method StrLen(at: nat, ghost f: Field) returns (n: nat)
      requires SenderField(f, bigEndian) && at >= 8 && at - 8 + |f| <= data.Length && data[at - 8..at - 8 + |f|] == f
      ensures n == |f| - 9
    {
      n := 0;
      NulAtEnd(f, bigEndian);
      assert forall i :: 0 <= i < |f| ==> f[i] == data[at - 8 + i];
      while data[at + n] != '\0'
        invariant n <= |f| - 9
        decreases |f| - n
      {
        assert data[at + n] == f[8 + n];
        n := n + 1;
      }
      assert data[at + n] == f[8 + n];
    }
  }

  // The first NUL of the string is the last byte of the field.
  lemma NulAtEnd(f: Field, big: bool)
    requires SenderField(f, big)
    ensures f[|f| - 1] == '\0' && forall i :: 8 <= i < |f| - 1 ==> f[i] != '\0'
  {
    hide WordBytes;
    forall i | 8 <= i < |f| - 1 ensures f[i] != '\0' {
      assert f[i] == f[8..|f| - 1][i - 8];
    }
  }

  // a piece that the fixed header is no part of
  predicate BehindHeader(v: IoVec) {
    v == Nothing || (v.InData? && v.from >= HEADER_SIZE)
  }

  ghost function Slice(s: seq<Byte>, v: IoVec): (r: seq<Byte>)
    requires v.InData? ==> v.from + v.len <= |s|
    ensures v.InData? ==> |r| == v.len
  {
    if v.InData? then s[v.from..v.from + v.len] else []
  }


  // A piece behind the fixed header keeps its bytes.
  lemma HeaderRest(before: seq<Byte>, after: seq<Byte>, v: IoVec)
    requires HEADER_SIZE <= |after| == |before| && after[HEADER_SIZE..] == before[HEADER_SIZE..]
    requires BehindHeader(v) && (v.InData? ==> v.from + v.len <= |before|)
    ensures Slice(after, v) == Slice(before, v)
  {
    if v.InData? {
      SliceOfSlice(after, HEADER_SIZE, |after|, v.from - HEADER_SIZE, v.from - HEADER_SIZE + v.len);
      SliceOfSlice(before, HEADER_SIZE, |after|, v.from - HEADER_SIZE, v.from - HEADER_SIZE + v.len);
    }
  }

  // a sender field, with a string that has no NUL inside
  predicate SenderField(f: Field, big: bool) {
    && 9 <= |f| < 0x1_0000_0000 && '\0' !in f[8..|f| - 1]
    && f == StringField(FIELD_SENDER, f[8..|f| - 1], big)
  }

  // Field k is the only sender, or there is none.
  predicate SenderAt(fields: seq<Field>, k: Option<nat>, big: bool) {
    && (forall j :: 0 <= j < |fields| ==> fields[j] != [] && (fields[j][0] == FIELD_SENDER <==> k == Some(j)))
    && (k.Some? ==> k.value < |fields| && SenderField(fields[k.value], big))
  }

  // a header with these fields, and zeros up to the body
  predicate HasFields(s: seq<Byte>, nHeader: nat, fields: seq<Field>) {
    && HEADER_SIZE <= nHeader && Align8(nHeader) <= |s|
    && s[HEADER_SIZE..nHeader] == Marshal(fields)
    && AllZero(s[nHeader..Align8(nHeader)])
  }

  function FieldStart(fields: seq<Field>, i: nat): nat
    requires i <= |fields|
  {
    HEADER_SIZE + |MarshalPadded(fields[..i])|
  }

  lemma OthersPadded(fields: seq<Field>, i: nat)
    requires i < |fields|
    ensures MarshalPadded(Others(fields, Some(i))) == MarshalPadded(fields[..i]) + MarshalPadded(fields[i + 1..])
  {
    MarshalPaddedConcat(fields[..i], fields[i + 1..]);
  }

  // the message after stitching, in terms of what stays
  lemma StitchedFields(fields: seq<Field>, k: Option<nat>, sender: Field, fixed: seq<Byte>, front: seq<Byte>,
                       back: seq<Byte>, body: seq<Byte>, big: bool)
    requires k.Some? ==> k.value < |fields|
    requires front + back == MarshalPadded(Others(fields, k))
    requires |front + back| + |sender| < 0x1_0000_0000 && |fixed| == 12
    ensures var fields', n := WithSender(fields, k, sender), |front| + |back| + |sender|;
      && |Marshal(fields')| == n
      && Joined(fixed, WordBytes(n, big), front, back, Padded(sender), body) == Canonical(fixed, fields', body, big)
      && Align8(HEADER_SIZE + n) == HEADER_SIZE + |front| + |back| + |Padded(sender)|
  {
    var others, fields' := Others(fields, k), WithSender(fields, k, sender);
    assert fields'[..|fields'| - 1] == others;
    AlignMore(HEADER_SIZE, |Marshal(fields')|);
    hide Padded;
    PaddedAfter(front + back, sender);
  }

  // Every reader of fields that recognises them and the new sender reads the stitched array.
  lemma StitchedParses(read: Reader, fields: seq<Field>, k: Option<nat>, sender: Field)
    requires k.Some? ==> k.value < |fields|
    requires Delimits(read, sender) && forall f :: f in fields ==> Delimits(read, f)
    ensures Parse(read, Marshal(WithSender(fields, k, sender))) == Some(WithSender(fields, k, sender))
  {
    hide Delimits;
    ParseMarshal(read, WithSender(fields, k, sender));
  }

  // A header that was read is read again after stitching, as the other fields and the sender.
  lemma StitchedReadsBack(fields: seq<Field>, k: Option<nat>, name: seq<Byte>, big: bool)
    requires k.Some? ==> k.value < |fields|
    requires |name| < 0x1_0000_0000
    requires Parse(ReadBasic(big), Marshal(fields)) == Some(fields)
    ensures var fields' := WithSender(fields, k, StringField(FIELD_SENDER, name, big));
      Parse(ReadBasic(big), Marshal(fields')) == Some(fields')
  {
    ParsedDelimits(big, Marshal(fields));
    StringFieldDelimits(FIELD_SENDER, name, big);
    hide ReadBasic;
    StitchedParses(ReadBasic(big), fields, k, StringField(FIELD_SENDER, name, big));
  }

  // The new sender is the only one.
  lemma StitchedSender(fields: seq<Field>, k: Option<nat>, name: seq<Byte>, big: bool)
    requires (k.Some? ==> k.value < |fields|) && SenderAt(fields, k, big)
    requires |name| + 9 < 0x1_0000_0000 && '\0' !in name
    ensures var fields' := WithSender(fields, k, StringField(FIELD_SENDER, name, big));
      SenderAt(fields', Some(|fields'| - 1), big)
  {
    NewSender(name, big);
    OthersNoSender(fields, k, big);
    hide StringField;
    hide SenderField;
    hide Others;
  }

  lemma OthersNoSender(fields: seq<Field>, k: Option<nat>, big: bool)
    requires (k.Some? ==> k.value < |fields|) && SenderAt(fields, k, big)
    ensures var others := Others(fields, k);
      forall j :: 0 <= j < |others| ==> others[j] != [] && others[j][0] != FIELD_SENDER
  {
    hide SenderField;
    var others := Others(fields, k);
    forall j | 0 <= j < |others| ensures others[j] != [] && others[j][0] != FIELD_SENDER {
      var i := if k.None? || j < k.value then j else j + 1;
      assert others[j] == fields[i] && k != Some(i);
    }
  }

  lemma NewSender(name: seq<Byte>, big: bool)
    requires |name| + 9 < 0x1_0000_0000 && '\0' !in name
    ensures var f := StringField(FIELD_SENDER, name, big); SenderField(f, big) && f[0] == FIELD_SENDER
  {
    hide WordBytes;
    var f := StringField(FIELD_SENDER, name, big);
    assert f[8..|f| - 1] == name;
  }

  // The new field has code 7 and holds a string: its length, its bytes, and a NUL.
  lemma SenderFieldIs(name: seq<Byte>, big: bool)
    requires |name| + 9 < 0x1_0000_0000
    ensures var f := StringField(FIELD_SENDER, name, big);
      && |f| == |name| + 9 && f[0] as int == 7 && f[1] as int == 1 && f[2] == 's' && f[3] as int == 0
      && Word(f[4..8], big) == |name| && f[8..8 + |name|] == name && f[|f| - 1] as int == 0
  {
    hide WordBytes;
    var f := StringField(FIELD_SENDER, name, big);
    assert f[4..8] == WordBytes(|name|, big);
  }

  // A receiver cuts the message where it ends.
  lemma CanonicalFrame(fixed: seq<Byte>, fields: seq<Field>, body: seq<Byte>, big: bool)
    requires |fixed| == 12 && fixed[0] == (if big then 'B' else 'l') && Word(fixed[4..8], big) == |body|
    requires |Marshal(fields)| < 0x1_0000_0000
    ensures var s, f := Canonical(fixed, fields, body, big), Frame(big, HEADER_SIZE + |Marshal(fields)|, |body|);
      && |s| == Size(f) >= HEADER_SIZE
      && FrameOf(s[..HEADER_SIZE]) == (if Size(f) > MESSAGE_SIZE_MAX then TooLarge else f)
  {
    hide Marshal;
    hide Padded;
    hide FrameOf;
    var n := |Marshal(fields)|;
    AlignMore(HEADER_SIZE, n);
    HeaderFirst(fixed, WordBytes(n, big), Padded(Marshal(fields)), body);
    HeaderFrame(fixed, WordBytes(n, big), n, |body|, big);
    hide WordBytes;
    hide Word;
  }

  lemma HeaderFirst(fixed: seq<Byte>, word: seq<Byte>, fields: seq<Byte>, body: seq<Byte>)
    requires |fixed| == 12 && |word| == 4
    ensures var s := fixed + word + fields + body;
      |s| == HEADER_SIZE + |fields| + |body| && s[..HEADER_SIZE] == fixed + word
  {
  }

  // what the fixed header and the length of the fields declare
  lemma HeaderFrame(fixed: seq<Byte>, word: seq<Byte>, n: nat, nBody: nat, big: bool)
    requires |fixed| == 12 && fixed[0] == (if big then 'B' else 'l') && Word(fixed[4..8], big) == nBody
    requires |word| == 4 && Word(word, big) == n
    ensures FrameOf(fixed + word) ==
      var f := Frame(big, HEADER_SIZE + n, nBody); if Size(f) > MESSAGE_SIZE_MAX then TooLarge else f
  {
    hide Word;
    assert (fixed + word)[4..8] == fixed[4..8] && (fixed + word)[12..16] == word;
  }

  lemma Assembled(before: seq<Byte>, after: seq<Byte>, n: nat, middle: seq<Byte>, patch: seq<Byte>, body: seq<Byte>)
    requires HEADER_SIZE <= n <= |before| == |after|
    requires after[..12] == before[..12] && after[HEADER_SIZE..] == before[HEADER_SIZE..]
    ensures after[0..n] + middle + patch + body
         == Joined(before[..12], after[12..HEADER_SIZE], before[HEADER_SIZE..n], middle, patch, body)
  {
    SliceOfSlice(after, HEADER_SIZE, |after|, 0, n - HEADER_SIZE);
    SliceOfSlice(before, HEADER_SIZE, |after|, 0, n - HEADER_SIZE);
    assert after[0..n] == after[..12] + after[12..HEADER_SIZE] + after[HEADER_SIZE..n];
  }

  lemma HeaderPadded(s: seq<Byte>, nHeader: nat, fields: seq<Field>)
    requires HasFields(s, nHeader, fields)
    ensures s[HEADER_SIZE..Align8(nHeader)] == MarshalPadded(fields)
  {
    hide Marshal;
    hide MarshalPadded;
    AlignMore(HEADER_SIZE, |Marshal(fields)|);
    PaddedMarshal(fields);
    assert s[nHeader..Align8(nHeader)] == Zeros(Align8(nHeader) - nHeader);
    assert s[HEADER_SIZE..Align8(nHeader)] == s[HEADER_SIZE..nHeader] + s[nHeader..Align8(nHeader)];
  }

  // where the parts of a header lie
  lemma PaddedSender(sender: seq<Byte>, big: bool, n: nat)
    requires |sender| < 0x1_0000_0000 && n == Align8(|sender| + 9)
    ensures var kind := [FIELD_SENDER, '\U{01}', 's', '\0'];
      Padded(StringField(FIELD_SENDER, sender, big)) ==
        kind + WordBytes(|sender|, big) + (sender + ['\0']) + Zeros(n - |sender| - 9)
  {
    var front := [FIELD_SENDER, '\U{01}', 's', '\0'] + WordBytes(|sender|, big);
    assert StringField(FIELD_SENDER, sender, big) == front + (sender + ['\0']);
  }

  lemma HeaderCut(s: seq<Byte>, nHeader: nat, fields: seq<Field>, i: nat)
    requires HasFields(s, nHeader, fields) && i < |fields|
    ensures var field := FieldStart(fields, i); var next := field + Align8(|fields[i]|);
      && next <= Align8(nHeader)
      && s[HEADER_SIZE..field] == MarshalPadded(fields[..i])
      && s[field..field + |fields[i]|] == fields[i]
      && s[next..Align8(nHeader)] == MarshalPadded(fields[i + 1..])
  {
    HeaderPadded(s, nHeader, fields);
    CutFields(fields, i);
    hide MarshalPadded;
    hide Marshal;
    hide Padded;
    hide HasFields;
    var front, mid, back := MarshalPadded(fields[..i]), Padded(fields[i]), MarshalPadded(fields[i + 1..]);
    Parts(s, HEADER_SIZE, Align8(nHeader), front, mid, back, fields[i]);
  }

  lemma CutFields(fields: seq<Field>, i: nat)
    requires i < |fields|
    ensures MarshalPadded(fields) ==
      MarshalPadded(fields[..i]) + (Padded(fields[i]) + MarshalPadded(fields[i + 1..]))
  {
    assert fields == fields[..i] + fields[i..] && fields[i..][1..] == fields[i + 1..];
    MarshalPaddedConcat(fields[..i], fields[i..]);
  }

  lemma Parts<T>(s: seq<T>, from: nat, to: nat, front: seq<T>, mid: seq<T>, back: seq<T>, start: seq<T>)
    requires from <= to <= |s| && s[from..to] == front + (mid + back) && start <= mid
    ensures var at := from + |front|;
      && at + |mid| <= to && s[from..at] == front && s[at..at + |start|] == start && s[at + |mid|..to] == back
  {
    var t := s[from..to];
    assert t[..|front|] == front && t[|front|..|front| + |start|] == start && t[|front| + |mid|..] == back;
    SliceOfSlice(s, from, to, 0, |front|);
    SliceOfSlice(s, from, to, |front|, |front| + |start|);
    SliceOfSlice(s, from, to, |front| + |mid|, |t|);
  }

  lemma SliceOfSlice<T>(s: seq<T>, from: nat, to: nat, a: nat, b: nat)
    requires from <= to <= |s| && a <= b <= to - from
    ensures s[from..to][a..b] == s[from + a..from + b]
  {
    forall i | 0 <= i < b - a ensures s[from..to][a..b][i] == s[from + a..from + b][i] {
    }
  }

  // address_to_string() of an id
  function UniqueName(id: nat): seq<Byte> {
    var s := Address.IdToString(id);
    assert forall i :: 0 <= i < |s| ==> s[i] as int < 256;
    s
  }

  function Pow10(d: nat): nat {
    if d == 0 then 1 else 10 * Pow10(d - 1)
  }

  lemma {:induction false} DecimalLength(n: nat, d: nat)
    requires d > 0 && n < Pow10(d)
    ensures |Address.Decimal(n)| <= d
  {
    if n >= 10 {
      assert Pow10(1) == 10 && d > 1;
      DecimalLength(n / 10, d - 1);
    }
  }

  // Every unique name fits, and so does a field with it.
  lemma UniqueNameLength(id: nat)
    requires id <= Address.ID_INVALID
    ensures UniqueName(id) == ":1." + Address.Decimal(id) && |UniqueName(id)| <= 23 <= ADDRESS_ID_STRING_MAX
    ensures Align8(|UniqueName(id)| + 9) <= 40
  {
    assert Pow10(5) == 100000;
    assert Pow10(10) == 10000000000;
    assert Pow10(15) == 1000000000000000;
    assert Pow10(20) == 100000000000000000000;
    DecimalLength(id, 20);
  }
}
