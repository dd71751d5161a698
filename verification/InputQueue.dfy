/**
 The input queue of a socket (src/dbus/queue.c, and socket_recvmsg() in src/dbus/socket.c).
 Bytes are read into a buffer that is shifted and resized, or directly into the target of the
 message being read; lines and messages are cut from the front. Ghost fields remember the
 whole stream, so that the queue can be shown to be a plain FIFO of bytes.
 */
module InputQueue {
  import opened Base
  import opened Bytes

  const LINE_MAX := 16384
  const RECV_MAX := 2048

  datatype PopResult = Done | Pending | Violation

  datatype Cursor =
    | IntoBuffer(to: nat)
    | IntoTarget(to: nat)
    | NotRead                // there is unparsed data left
    | QuotaExceeded
    | LineTooLong

  // No line ends inside s.
  predicate NoLine(s: seq<Byte>) {
    forall i :: 0 < i < |s| ==> !EndsLine(s, i)
  }

  predicate EndsLine(s: seq<Byte>, i: nat)
    requires 0 < i < |s|
  {
    s[i] == '\n' && s[i - 1] == '\r'
  }

  lemma NoLineMore(s: seq<Byte>)
    requires s != [] && NoLine(s[..|s| - 1]) && (|s| > 1 ==> !EndsLine(s, |s| - 1))
    ensures NoLine(s)
  {
    forall i | 0 < i < |s| ensures !EndsLine(s, i) {
      assert i < |s| - 1 ==> !EndsLine(s[..|s| - 1], i);
    }
  }

  lemma EmptyHasNoLine()
    ensures NoLine([])
  {
  }

  // The first line of s is s[..n].
  predicate LineOf(s: seq<Byte>, n: nat) {
    n + 1 < |s| && EndsLine(s, n + 1) && NoLine(s[..n + 1])
  }

  // The first CRLF of s is behind its first n bytes.
  lemma LineOfIff(s: seq<Byte>, n: nat)
    ensures LineOf(s, n) <==>
      && n + 1 < |s| && s[n] == '\r' && s[n + 1] == '\n'
      && forall i :: 0 <= i < n ==> !(s[i] == '\r' && s[i + 1] == '\n')
  {
    if LineOf(s, n) {
      forall i | 0 <= i < n ensures !(s[i] == '\r' && s[i + 1] == '\n') {
        assert !EndsLine(s[..n + 1], i + 1);
      }
    }
  }

  // The file descriptors that came with the bytes from lo to hi are f: one set or none.
  ghost predicate Carried(sets: map<nat, FdSet>, lo: nat, hi: nat, f: Option<FdSet>) {
    match f
    case None => forall p :: p in sets ==> !(lo <= p < hi)
    case Some(x) => exists p :: CarriedAt(sets, lo, hi, x, p)
  }

  ghost predicate CarriedAt(sets: map<nat, FdSet>, lo: nat, hi: nat, x: FdSet, p: nat) {
    && p in sets && lo <= p < hi && sets[p] == x
    && forall q :: q in sets && lo <= q < hi ==> q == p
  }

  lemma CarriedMore(sets: map<nat, FdSet>, lo: nat, mid: nat, hi: nat, f: Option<FdSet>, g: Option<FdSet>)
    requires lo <= mid <= hi && Carried(sets, lo, mid, f) && Carried(sets, mid, hi, g)
    requires f.None? || g.None?
    ensures Carried(sets, lo, hi, if f.Some? then f else g)
  {
    if f.Some? {
      var p :| CarriedAt(sets, lo, mid, f.value, p);
      assert CarriedAt(sets, lo, hi, f.value, p);
    } else if g.Some? {
      var p :| CarriedAt(sets, mid, hi, g.value, p);
      assert CarriedAt(sets, lo, hi, g.value, p);
    }
  }

  // a set arrives with the last byte of a chunk
  lemma CarriedNew(sets: map<nat, FdSet>, lo: nat, hi: nat, n: nat, f: Option<FdSet>, g: Option<FdSet>)
    requires (forall p :: p in sets ==> p < hi) && lo <= hi && n > 0
    requires Carried(sets, lo, hi, f) && (f.None? || g.None?)
    ensures var sets' := if g.Some? then sets[hi + n - 1 := g.value] else sets;
      Carried(sets', lo, hi + n, if f.Some? then f else g) && Carried(sets', hi, hi + n, g)
  {
    var sets' := if g.Some? then sets[hi + n - 1 := g.value] else sets;
    if g.Some? {
      assert CarriedAt(sets', hi, hi + n, g.value, hi + n - 1);
      assert Carried(sets', lo, hi, None);
      CarriedMore(sets', lo, hi, hi + n, None, g);
    } else {
      CarriedMore(sets, lo, hi, hi + n, f, None);
    }
  }

  // a range whose only set is at its end
  lemma CarriedByLast(sets: map<nat, FdSet>, lo: nat, mid: nat, hi: nat, f: Option<FdSet>)
    requires lo <= mid < hi && Carried(sets, lo, hi, f)
    requires f.Some? ==> hi - 1 in sets
    ensures Carried(sets, lo, mid, None) && Carried(sets, mid, hi, f)
  {
    if f.Some? {
      var p :| CarriedAt(sets, lo, hi, f.value, p);
      assert CarriedAt(sets, mid, hi, f.value, hi - 1);
    }
  }

  lemma CarriedNothing(sets: map<nat, FdSet>, n: nat)
    ensures Carried(sets, n, n, None)
  {
  }

  lemma CarriedIff(sets: map<nat, FdSet>, lo: nat, hi: nat, x: FdSet)
    ensures Carried(sets, lo, hi, None) <==> forall p :: lo <= p < hi ==> p !in sets
    ensures Carried(sets, lo, hi, Some(x)) <==>
      exists p :: p in sets && lo <= p < hi && sets[p] == x && forall q :: lo <= q < hi && q != p ==> q !in sets
  {
    if Carried(sets, lo, hi, Some(x)) {
      var p :| CarriedAt(sets, lo, hi, x, p);
      assert p in sets;
    }
    if p :| p in sets && lo <= p < hi && sets[p] == x && forall q :: lo <= q < hi && q != p ==> q !in sets {
      assert CarriedAt(sets, lo, hi, x, p);
    }
  }

  // Two sets came with the bytes from lo to hi.
  ghost predicate TwoSets(sets: map<nat, FdSet>, lo: nat, hi: nat) {
    exists p, q :: p in sets && q in sets && lo <= p < q < hi
  }

  // A set came with a byte of the first line of `unread`, or of the line that is not complete yet;
  // the first of these bytes is at `at` in the stream.
  ghost predicate SetOnLine(sets: map<nat, FdSet>, at: nat, unread: seq<Byte>) {
    exists p :: p in sets && at <= p < at + |unread| && forall n: nat :: LineOf(unread, n) ==> p < at + n + 2
  }

  // What is known of the byte stream behind a queue
  datatype Stream = Stream(
    received: seq<Byte>,        // everything ever read
    sets: map<nat, FdSet>,      // accepted descriptors, by the last byte of their chunk
    taken: nat,                 // bytes handed out
    mark: nat,                  // bytes up to the last hand-out of descriptors
    binary: bool)               // the first target was set; no lines after that

  const NOTHING := Stream([], map[], 0, 0, false)

  // The bytes copied to the target and the bytes in the buffer are those not handed out yet.
  ghost predicate Tracks(s: Stream, copied: seq<Byte>, buffered: seq<Byte>) {
    && s.mark <= s.taken <= |s.received|
    && (forall p :: p in s.sets ==> p < |s.received|)
    && copied + buffered == s.received[s.taken..]
  }

  // Descriptors wait beside the last byte they came with, or with the message that has it.
  ghost predicate TracksFds(s: Stream, nCopied: nat, unparsed: bool, fds: Option<FdSet>, pendingFds: Option<FdSet>) {
    && Carried(s.sets, s.mark, s.taken + nCopied, pendingFds)
    && Carried(s.sets, s.taken + nCopied, |s.received|, fds)
    && (fds.Some? ==> unparsed && |s.received| - 1 in s.sets)
    && (!s.binary ==> pendingFds.None?)
  }

  datatype Target = Target(data: array?<Byte>, base: nat, nData: nat, nCopied: nat, fds: Option<FdSet>)

  class IQueue {
    const buffer: array<Byte>       // embedded, RECV_MAX bytes
    var data: array<Byte>           // the buffer, or a larger one from the heap
    var start: nat
    var end: nat
    var cursor: nat
    var fds: Option<FdSet>
    var pending: Target             // nData bytes of an array, from `base`
    ghost var stream: Stream

    // Every index stays in its array.
    ghost predicate Shape()
      reads this
    {
      && start <= cursor <= end <= data.Length
      && buffer.Length == RECV_MAX
      && (data != buffer ==> data.Length == LINE_MAX)
      && pending.nCopied <= pending.nData
      && if pending.data == null then pending.nData == 0
         else pending.base + pending.nData <= pending.data.Length && pending.data != buffer && pending.data != data
    }

    ghost function Copied(): seq<Byte>
      requires Shape()
      reads this, pending.data
    {
      if pending.data == null then [] else pending.data[pending.base..pending.base + pending.nCopied]
    }

    // The bytes that were read but not handed out
    ghost function Held(): seq<Byte>
      requires Shape()
      reads this, data, pending.data
    {
      Copied() + data[start..end]
    }

    // what line parsing has seen already holds no line
    ghost predicate Scanned()
      requires Shape()
      reads this, data
    {
      && (pending.data != null ==> stream.binary)
      && (stream.binary ==> cursor == start)
      && NoLine(data[start..cursor])
      && (!stream.binary && start > 0 ==> data[start - 1] == '\n')
    }

    ghost predicate Valid()
      reads this, buffer, data, pending.data
    {
      && Shape()
      && Tracks(stream, Copied(), data[start..end])
      && TracksFds(stream, pending.nCopied, cursor < end, fds, pending.fds)
      && Scanned()
    }

    // iqueue_init()
    constructor ()
      ensures Valid() && stream == NOTHING && pending.data == null && fresh(buffer) && data == buffer
      ensures start == cursor == end == 0
    {
      buffer := new Byte[RECV_MAX];
      data := buffer;
      start, end, cursor, fds, pending := 0, 0, 0, None, Target(null, 0, 0, 0, None);
      stream := NOTHING;
    }

    // iqueue_flush(): what was held is lost
    method Flush()
      requires Shape() && stream.taken <= |stream.received| && forall p :: p in stream.sets ==> p < |stream.received|
      modifies this
      ensures Valid() && Held() == [] && pending.data == null && data == old(data)
      ensures stream == old(stream).(taken := |stream.received|, mark := |stream.received|)
    {
      start, end, cursor, fds, pending := 0, 0, 0, None, Target(null, 0, 0, 0, None);
      stream := stream.(taken := |stream.received|, mark := |stream.received|);
    }

    // iqueue_set_target(); false if the quota is exceeded
    method SetTarget(t: array<Byte>, from: nat, n: nat) returns (ok: bool)
      requires Valid() && pending.data == null && cursor == start
      requires from + n <= t.Length && t != buffer && t != data
      modifies this`pending, this`stream
      ensures Valid() && Held() == old(Held())
      ensures ok ==> pending == Target(t, from, n, 0, old(pending.fds)) && stream == old(stream).(binary := true)
      ensures !ok ==> pending == old(pending) && stream == old(stream)
    {
      hide Carried;
      ok := *;
      if ok {
        pending := Target(t, from, n, 0, pending.fds);
        stream := stream.(binary := true);
      }
    }

    // where GetCursor() told the socket to read to
    ghost predicate ReadyFor(c: Cursor)
      reads this, data
    {
      match c
      case IntoBuffer(to) => end < to <= data.Length && to <= end + RECV_MAX && fds.None? && cursor == end
      case IntoTarget(to) => pending.data != null && pending.nCopied < to == pending.nData && start == end && fds.None?
      case _ => true
    }

    // iqueue_get_cursor(): shifts the buffer, perhaps exchanges it, and says where to read to
    method GetCursor() returns (c: Cursor)
      requires Valid()
      modifies this`data, this`start, this`end, this`cursor, data, buffer
      ensures Valid() && Held() == old(Held())
      ensures data == old(data) || data == buffer || fresh(data)
      ensures ReadyFor(c)
      ensures c == NotRead <==> old(cursor) < old(end)
      ensures c == LineTooLong <==> old(cursor) == old(end) && |Held()| >= LINE_MAX && pending.data == null
      ensures c.IntoTarget? <==>
        old(cursor) == old(end) && pending.data != null && pending.nData - pending.nCopied >= RECV_MAX
      ensures pending.data != null ==> c == NotRead || c.IntoTarget? || c == IntoBuffer(RECV_MAX)
      ensures c.IntoBuffer? && pending.data != null ==> end == 0
    {
      hide Carried;
      hide NoLine;
      Shift();
      if cursor < end {
        return NotRead;
      }
      if data.Length <= end {
        if data.Length >= LINE_MAX {
          return LineTooLong;
        }
        var quota: bool := *;
        if !quota {
          return QuotaExceeded;
        }
        var heap := new Byte[LINE_MAX];
        Exchange(heap);
      } else if data != buffer && pending.data != null {
        Exchange(buffer);
      }
      if pending.nData - pending.nCopied >= data.Length - end {
        return IntoTarget(pending.nData);
      }
      return IntoBuffer(if data.Length - end > RECV_MAX then end + RECV_MAX else data.Length);
    }

    // the memmove() that brings the held bytes to the front
    method Shift()
      requires Valid()
      modifies this`start, this`end, this`cursor, data
      ensures Valid() && Held() == old(Held()) && start == 0
      ensures end == old(end) - old(start) && cursor == old(cursor) - old(start)
    {
      hide Tracks;
      hide TracksFds;
      hide NoLine;
      MoveHeld();
      hide Copied;
      start, end, cursor := 0, end - start, cursor - start;
      assert data[start..end] == data[..end] && data[start..cursor] == data[..cursor];
    }

    method MoveHeld()
      requires Shape()
      modifies data
      ensures Copied() == old(Copied())
      ensures data[..end - start] == old(data[start..end]) && data[..cursor - start] == old(data[start..cursor])
    {
      ghost var held := data[start..end];
      SamePart(data[..], held, start, cursor - start);
      MoveDown(data, start, end - start);
      SamePart(data[..], held, 0, cursor - start);
    }

    // the held bytes move to another buffer
    method Exchange(to: array<Byte>)
      requires Valid() && start == 0 && end <= to.Length && to != data && to != pending.data
      requires if to == buffer then true else to.Length == LINE_MAX
      modifies this`data, to
      ensures Valid() && Held() == old(Held()) && data == to
    {
      hide Tracks;
      hide TracksFds;
      hide NoLine;
      ghost var before := data[..end];
      Front(data, before, cursor);
      CopyInto(to, 0, data, 0, end);
      Front(to, before, cursor);
      data := to;
    }

    lemma Front(a: array<Byte>, s: seq<Byte>, n: nat)
      requires n <= |s| <= a.Length && a[..|s|] == s
      ensures a[0..|s|] == s && a[0..n] == s[..n]
    {
    }

    // socket_recvmsg(): a chunk arrives, perhaps with descriptors. They are dropped if the
    // message that the chunk is read into directly has some already.
    method Append(c: Cursor, chunk: seq<Byte>, fs: Option<FdSet>)
      requires Valid() && ReadyFor(c) && chunk != []
      requires match c case IntoBuffer(to) => end + |chunk| <= to
                       case IntoTarget(to) => pending.nCopied + |chunk| <= to
                       case _ => false
      modifies this`end, this`fds, this`pending, this`stream, data, pending.data
      ensures Valid() && Held() == old(Held()) + chunk && cursor == old(cursor)
      ensures pending.data == old(pending.data) && pending.base == old(pending.base) &&
        pending.nData == old(pending.nData)
      ensures c.IntoBuffer? ==> cursor < end && fds == fs && pending == old(pending)
      ensures c.IntoTarget? ==> fds.None? && pending.fds == if old(pending.fds).Some? then old(pending.fds) else fs
      ensures pending.data != null ==>
        pending.data[..pending.base] == old(if pending.data == null then [] else pending.data[..pending.base])
      ensures stream == Arrived(old(stream), chunk, if c.IntoTarget? && old(pending.fds).Some? then None else fs)
    {
      hide Held;
      hide Tracks;
      hide TracksFds;
      hide Scanned;
      if c.IntoBuffer? {
        ReadBuffered(chunk, fs);
      } else {
        ReadDirectly(chunk, fs);
      }
    }

    method ReadBuffered(chunk: seq<Byte>, fs: Option<FdSet>)
      requires Valid() && cursor == end && end + |chunk| <= data.Length && chunk != [] && fds.None?
      modifies this`end, this`fds, this`stream, data
      ensures Valid() && Held() == old(Held()) + chunk
      ensures cursor < end && stream == Arrived(old(stream), chunk, fs) && fds == fs
    {
      hide TracksFds;
      hide Tracks;
      hide NoLine;
      BufferGrows(chunk, fs);
      AppendToBuffer(chunk);
      fds := fs;
      stream := Arrived(stream, chunk, fs);
    }

    lemma BufferGrows(chunk: seq<Byte>, fs: Option<FdSet>)
      requires Valid() && cursor == end && chunk != [] && fds.None?
      ensures Tracks(Arrived(stream, chunk, fs), Copied(), data[start..end] + chunk)
      ensures TracksFds(Arrived(stream, chunk, fs), pending.nCopied, true, fs, pending.fds)
      ensures Held() + chunk == Copied() + (data[start..end] + chunk)
    {
      hide NoLine;
      hide TracksFds;
      TracksMore(stream, Copied(), data[start..end], chunk, fs);
      BufferedFds(stream, pending.nCopied, chunk, fs, pending.fds);
    }

    lemma TargetGrows(chunk: seq<Byte>, fs: Option<FdSet>)
      requires Valid() && start == end && pending.data != null && chunk != [] && fds.None?
      ensures Tracks(Arrived(stream, chunk, fs), Copied() + chunk, [])
      ensures Tracks(Arrived(stream, chunk, None), Copied() + chunk, [])
      ensures TracksFds(Arrived(stream, chunk, None), pending.nCopied + |chunk|, false, None, pending.fds)
      ensures pending.fds.None? ==> TracksFds(Arrived(stream, chunk, fs), pending.nCopied + |chunk|, false, None, fs)
      ensures Held() == Copied() && data[start..end] == []
    {
      hide NoLine;
      hide TracksFds;
      assert data[start..end] == [];
      TracksMore(stream, Copied(), [], chunk, fs);
      TracksMore(stream, Copied(), [], chunk, None);
      TargetedFds(stream, pending.nCopied, chunk, fs, pending.fds);
    }

    method ReadDirectly(chunk: seq<Byte>, fs: Option<FdSet>)
      requires Valid() && chunk != [] && fds.None? && start == end
      requires pending.data != null && pending.nCopied + |chunk| <= pending.nData
      modifies this`pending, this`stream, pending.data
      ensures Valid() && Held() == old(Held()) + chunk
      ensures pending.data == old(pending.data) && pending.base == old(pending.base) &&
        pending.nData == old(pending.nData)
      ensures pending.data[..pending.base] == old(pending.data[..pending.base])
      ensures pending.fds == if old(pending.fds).Some? then old(pending.fds) else fs
      ensures stream == Arrived(old(stream), chunk, if old(pending.fds).Some? then None else fs)
    {
      hide TracksFds;
      hide Tracks;
      hide NoLine;
      TargetGrows(chunk, fs);
      AppendToTarget(chunk);
      if pending.fds.None? {
        pending, stream := pending.(fds := fs), Arrived(stream, chunk, fs);
      } else {
        stream := Arrived(stream, chunk, None);
      }
      assert Held() == Copied() + [];
    }

    method AppendToBuffer(chunk: seq<Byte>)
      requires Valid() && cursor == end && end + |chunk| <= data.Length
      modifies this`end, data
      ensures end == old(end) + |chunk| && Shape() && Scanned()
      ensures data[start..end] == old(data[start..end]) + chunk
      ensures Copied() == old(Copied())
    {
      hide NoLine;
      ghost var parsed := data[start..cursor];
      Fill(data, end, chunk);
      end := end + |chunk|;
      assert data[start..cursor] == parsed;
    }

    method AppendToTarget(chunk: seq<Byte>)
      requires Valid() && pending.data != null && pending.nCopied + |chunk| <= pending.nData
      modifies this`pending, pending.data
      ensures Shape() && Scanned()
      ensures pending == old(pending).(nCopied := old(pending.nCopied) + |chunk|)
      ensures pending.data[..pending.base] == old(pending.data[..pending.base])
      ensures data[start..end] == old(data[start..end])
      ensures Copied() == old(Copied()) + chunk
    {
      hide NoLine;
      hide Tracks;
      hide TracksFds;
      FillTarget(chunk);
      pending := pending.(nCopied := pending.nCopied + |chunk|);
    }

    method FillTarget(chunk: seq<Byte>)
      requires Shape() && pending.data != null && pending.nCopied + |chunk| <= pending.nData
      modifies pending.data
      ensures pending.data[..pending.base] == old(pending.data[..pending.base])
      ensures pending.data[pending.base..pending.base + pending.nCopied + |chunk|] == old(Copied()) + chunk
      ensures data[start..end] == old(data[start..end]) && data[start..cursor] == old(data[start..cursor])
    {
      ghost var before, all := pending.data[..], data[..];
      var at := pending.base + pending.nCopied;
      Fill(pending.data, at, chunk);
      assert data[..] == all;
      Filled(before, pending.data[..], pending.base, at, chunk);
    }

    // The line before the cursor is cut out.
    method CutLine() returns (line: seq<Byte>)
      requires Valid() && !stream.binary && 0 < cursor < end && data[cursor] == '\n' && data[cursor - 1] == '\r'
      requires fds.Some? ==> cursor + 1 < end
      modifies this`start, this`cursor, this`stream
      ensures Valid() && start == cursor == old(cursor) + 1
      ensures LineOf(old(Held()), |line|) && line == old(Held())[..|line|] && Held() == old(Held())[|line| + 2..]
      ensures start == old(start) + |line| + 2
      ensures stream == old(stream).(taken := old(stream.taken) + |line| + 2, mark := old(stream.taken) + |line| + 2)
      ensures Carried(stream.sets, old(stream.mark), stream.mark, None)
      ensures !SetOnLine(stream.sets, old(stream.taken), old(Held()))
    {
      hide *;
      var n := cursor - start - 1;
      LineParts(n);
      line := data[start..start + n];
      SkipLine(cursor + 1, PastLine(stream, n));
    }

    lemma LineParts(n: int)
      requires Valid() && !stream.binary && 0 < cursor < end && data[cursor] == '\n' && data[cursor - 1] == '\r'
      requires (fds.Some? ==> cursor + 1 < end) && n == cursor - start - 1
      ensures Shape() && n >= 0 && cursor + 1 <= end <= data.Length
      ensures pending.data == null && pending.nCopied == 0 && pending.fds.None?
      ensures Held() == data[start..end] && data[start..start + n] == Held()[..n] &&
        data[cursor + 1..end] == Held()[n + 2..]
      ensures LineOf(Held(), n) && !SetOnLine(stream.sets, stream.taken, Held()) && NoLine(data[cursor + 1..cursor + 1])
      ensures Tracks(PastLine(stream, n), [], data[cursor + 1..end])
      ensures TracksFds(PastLine(stream, n), 0, cursor + 1 < end, fds, None)
      ensures Carried(stream.sets, stream.mark, stream.taken + n + 2, None)
      ensures PastLine(stream, n) == stream.(taken := stream.taken + n + 2, mark := stream.taken + n + 2)
    {
      hide SetOnLine;
      hide Carried;
      hide NoLine;
      hide LineOf;
      hide Tracks;
      NoTargetFds();
      hide TracksFds;
      WholeBuffer();
      NotAtStart();
      LineFound(n);
      NothingParsed(n);
    }

    // the last byte handed out was a line feed
    lemma NotAtStart()
      requires Shape() && Scanned() && !stream.binary && 0 < cursor && data[cursor - 1] == '\r'
      ensures start < cursor
    {
    }

    method SkipLine(to: nat, ghost after: Stream)
      requires Shape() && start < to <= end && pending.data == null && pending.nCopied == 0 && pending.fds.None?
      requires !after.binary && data[to - 1] == '\n' && NoLine(data[to..to])
      requires Tracks(after, [], data[to..end]) && TracksFds(after, 0, to < end, fds, None)
      modifies this`start, this`cursor, this`stream
      ensures Valid() && start == cursor == to && stream == after && Held() == data[to..end]
    {
      hide Carried;
      hide NoLine;
      hide Tracks;
      hide TracksFds;
      start, cursor, stream := to, to, after;
      WholeBuffer();
    }

    lemma NothingParsed(n: nat)
      requires Shape() && start + n + 2 <= end
      ensures var held, to := data[start..end], start + n + 2;
        data[to..end] == held[n + 2..] && data[to..to] == [] && NoLine([]) && data[start..start + n] == held[..n]
    {
      var s, to := data[..], start + n + 2;
      assert data[start..end] == s[start..end] && data[to..end] == s[to..end];
      assert data[start..start + n] == s[start..start + n];
      Slices(s, start, end, n);
      Slices(s, start, end, n + 2);
      hide *;
    }

    lemma WholeBuffer()
      requires Shape() && pending.data == null
      ensures Held() == data[start..end] && Copied() == []
    {
      assert [] + data[start..end] == data[start..end];
    }

    lemma LineFound(n: nat)
      requires Valid() && !stream.binary && 0 < cursor < end && data[cursor] == '\n' && data[cursor - 1] == '\r'
      requires fds.Some? ==> cursor + 1 < end
      requires n == cursor - start - 1
      ensures var held := data[start..end];
        && LineOf(held, n) && !SetOnLine(stream.sets, stream.taken, held)
        && Tracks(PastLine(stream, n), [], held[n + 2..])
        && TracksFds(PastLine(stream, n), 0, n + 2 < |held|, fds, None)
        && Carried(stream.sets, stream.mark, stream.taken + n + 2, None)
    {
      hide SetOnLine;
      hide Carried;
      hide NoLine;
      hide Tracks;
      NoTargetFds();
      hide TracksFds;
      LineEnds(data[..], start, end, cursor);
      LineTracked(stream, data[start..end], fds, n, data[start..cursor]);
    }

    lemma NoTargetFds()
      requires Valid() && !stream.binary
      ensures pending.data == null && pending.nCopied == 0 && pending.fds.None?
    {
      hide Carried;
    }

    // a write to a byte that was handed out, but not to the last one
    method Overwrite(i: nat, b: Byte)
      requires Valid() && i + 1 < start
      modifies data
      ensures Valid() && Held() == old(Held()) && data[i] == b
    {
      hide Tracks;
      hide TracksFds;
      hide NoLine;
      ghost var held := data[start..end];
      assert held[..cursor - start] == data[start..cursor];
      data[i] := b;
      assert data[start..end] == held;
      assert held[..cursor - start] == data[start..cursor];
    }

    // the line that ends at the cursor, with a NUL in place of its CR
    method HandOutLine() returns (line: seq<Byte>)
      requires Valid() && !stream.binary && 0 < cursor < end && data[cursor] == '\n' && data[cursor - 1] == '\r'
      requires fds.Some? ==> cursor + 1 < end
      modifies this`start, this`cursor, this`stream, data
      ensures Valid() && start == cursor == old(cursor) + 1 && start > 1 && data[start - 2] == '\0'
      ensures LineOf(old(Held()), |line|) && line == old(Held())[..|line|] && Held() == old(Held())[|line| + 2..]
      ensures stream == old(stream).(taken := old(stream.taken) + |line| + 2, mark := old(stream.taken) + |line| + 2)
      ensures Carried(stream.sets, old(stream.mark), stream.mark, None)
      ensures !SetOnLine(stream.sets, old(stream.taken), old(Held()))
    {
      hide *;
      line := CutLine();
      StartInData();
      Overwrite(start - 2, '\0');
    }

    lemma StartInData()
      requires Valid()
      ensures start <= data.Length
    {
    }

    // one byte further, where no line ends
    method Advance()
      requires Valid() && !stream.binary && cursor < end && (fds.Some? ==> cursor + 1 < end)
      requires cursor > 0 ==> !(data[cursor] == '\n' && data[cursor - 1] == '\r')
      modifies this`cursor
      ensures Valid() && cursor == old(cursor) + 1 && Held() == old(Held())
    {
      hide Carried;
      assert data[start..cursor + 1][..cursor - start] == data[start..cursor];
      NoLineMore(data[start..cursor + 1]);
      cursor := cursor + 1;
    }

    lemma LastByteOpen()
      requires Valid() && !stream.binary && cursor + 1 == end
      ensures Held() != [] && NoLine(Held()[..|Held()| - 1])
    {
      assert Held() == data[start..end];
      assert Held()[..|Held()| - 1] == data[start..cursor];
    }

    // iqueue_pop_line()
    method PopLine() returns (r: PopResult, line: seq<Byte>)
      requires Valid() && !stream.binary
      modifies this`start, this`cursor, this`stream, data
      ensures Valid() && !stream.binary
      ensures r == Done ==>
        && LineOf(old(Held()), |line|) && line == old(Held())[..|line|] && Held() == old(Held())[|line| + 2..]
        && stream == old(stream).(taken := old(stream.taken) + |line| + 2, mark := old(stream.taken) + |line| + 2)
        && Carried(stream.sets, old(stream.mark), stream.mark, None) && cursor == start
      ensures r == Done ==> start > 1 && data[start - 2] == '\0'
      ensures r != Done ==> stream == old(stream) && Held() == old(Held()) && line == []
      ensures r == Pending ==> NoLine(Held()) && fds.None? && cursor == end
      ensures r == Violation ==> fds.Some? && Held() != [] && NoLine(Held()[..|Held()| - 1])
      ensures r == Violation <==> SetOnLine(old(stream.sets), old(stream.taken), old(Held()))
    {
      hide Carried;
      hide Tracks;
      hide SetOnLine;
      line := [];
      while cursor < end
        invariant Valid() && Held() == old(Held()) && stream == old(stream) && line == []
      {
        if cursor + 1 >= end && fds.Some? {
          LastByteOpen();
          SetFound();
          return Violation, [];
        }
        if cursor > 0 && data[cursor] == '\n' && data[cursor - 1] == '\r' {
          line := HandOutLine();
          return Done, line;
        }
        Advance();
      }
      assert Held() == data[start..cursor];
      NoSetLeft();
      return Pending, [];
    }

    lemma SetFound()
      requires Valid() && !stream.binary && fds.Some? && Held() != [] && NoLine(Held()[..|Held()| - 1])
      ensures SetOnLine(stream.sets, stream.taken, Held())
    {
      var p, held := |stream.received| - 1, Held();
      assert p == stream.taken + |held| - 1;
      forall n: nat | LineOf(held, n) ensures p < stream.taken + n + 2 {
        assert n + 2 < |held| ==> !EndsLine(held[..|held| - 1], n + 1);
      }
    }

    lemma NoSetLeft()
      requires Valid() && !stream.binary && fds.None?
      ensures !SetOnLine(stream.sets, stream.taken, Held())
    {
      assert |Held()| == |stream.received| - stream.taken;
    }

    // iqueue_pop_data(): the first nData held bytes are in the target, with the only descriptors
    // that came with any of them since the last hand-out
    method PopData(wanted: bool) returns (r: PopResult, f: Option<FdSet>)
      requires Valid() && pending.data != null
      modifies this`start, this`cursor, this`fds, this`pending, this`stream, pending.data
      ensures Shape() && data[..] == old(data[..])
      ensures old(pending.data)[..old(pending.base)] == old(pending.data[..pending.base])
      ensures old(pending.data)[old(pending.base + pending.nData)..] ==
        old(pending.data[pending.base + pending.nData..])
      ensures r == Violation <==> old(fds).Some? && old(pending.fds).Some? && |old(Held())| <= old(pending.nData)
      ensures r == Violation <==> TwoSets(old(stream.sets), old(stream.mark), old(stream.taken + pending.nData))
      ensures r == Violation ==> stream == old(stream)
      ensures r != Violation ==> Valid() && (r == Done <==> |old(Held())| >= old(pending.nData))
      ensures r == Pending ==>
        && stream == old(stream) && Held() == old(Held()) && cursor == end && fds.None?
        && pending.nCopied == |Held()| && pending.fds == (if old(fds).Some? then old(fds) else old(pending.fds))
        && pending.data == old(pending.data) && pending.base == old(pending.base) && pending.nData == old(pending.nData)
      ensures r == Done ==>
        && pending == Target(null, 0, 0, 0, if wanted then None else pending.fds) && cursor == start
        && old(pending.data)[old(pending.base)..old(pending.base + pending.nData)] == old(Held())[..old(pending.nData)]
        && Held() == old(Held())[old(pending.nData)..]
        && stream == Handed(old(stream), old(pending.nData), wanted)
        && Carried(stream.sets, old(stream.mark), stream.taken, if wanted then f else pending.fds)
        && (if wanted then f else pending.fds)
           == (if old(fds).Some? && |old(Held())| <= old(pending.nData) then old(fds) else old(pending.fds))
    {
      hide *;
      WaitingSets();
      Bounds();
      HeldParts();
      var ok := Claim();
      if !ok {
        return Violation, None;
      }
      HeldParts();
      if pending.nCopied < pending.nData {
        return Pending, None;
      }
      f := Finish(wanted);
      return Done, f;
    }

    lemma WaitingSets()
      requires Valid() && pending.data != null
      ensures TwoSets(stream.sets, stream.mark, stream.taken + pending.nData) <==>
        fds.Some? && pending.fds.Some? && |Held()| <= pending.nData
    {
      assert |Held()| == |stream.received| - stream.taken;
      SetsWaiting(stream, pending.nCopied, cursor < end, fds, pending.fds, stream.taken + pending.nData);
    }

    // The target gets what the buffer has, and the descriptors with the last byte of it.
    method Claim() returns (ok: bool)
      requires Valid() && pending.data != null
      modifies this`start, this`cursor, this`fds, this`pending, pending.data
      ensures Shape() && data[..] == old(data[..])
      ensures pending.data == old(pending.data) && pending.base == old(pending.base) &&
        pending.nData == old(pending.nData)
      ensures pending.data[..pending.base] == old(pending.data[..pending.base])
      ensures pending.data[pending.base + pending.nData..] == old(pending.data[pending.base + pending.nData..])
      ensures !ok <==> old(fds).Some? && old(pending.fds).Some? && |old(Held())| <= pending.nData
      ensures ok ==> Valid() && Held() == old(Held()) && (start == end || pending.nCopied == pending.nData)
      ensures ok && start == end ==> fds.None? && pending.nCopied == |Held()|
      ensures ok ==>
        pending.fds == if old(fds).Some? && |old(Held())| <= pending.nData then old(fds) else old(pending.fds)
      ensures start == cursor
    {
      hide *;
      Bounds();
      ghost var n :=
        if end - start < pending.nData - pending.nCopied then end - start else pending.nData - pending.nCopied;
      ClaimedFds(n);
      ghost var held := Held();
      Transfer();
      HeldParts();
      TracksSplit(stream, held, Copied(), data[start..end]);
      ok := SettleFds();
    }

    // descriptors in the buffer go with its last byte
    method SettleFds() returns (ok: bool)
      requires Shape() && Scanned() && pending.data != null
      requires Tracks(stream, Copied(), data[start..end])
      requires if start < end then TracksFds(stream, pending.nCopied, true, fds, pending.fds)
               else fds.None? || pending.fds.None? ==>
                 TracksFds(stream, pending.nCopied, false, None, if fds.Some? then fds else pending.fds)
      modifies this`fds, this`pending
      ensures !ok <==> start == end && old(fds).Some? && old(pending.fds).Some?
      ensures Shape() && (ok ==> Valid() && Held() == old(Held()))
      ensures ok && start == end ==> fds.None?
      ensures pending ==
        old(pending).(fds := if ok && start == end && old(fds).Some? then old(fds) else old(pending.fds))
    {
      hide Tracks;
      hide TracksFds;
      hide NoLine;
      ok := true;
      if start == end && fds.Some? {
        if pending.fds.Some? {
          return false;
        }
        MoveFds();
      }
    }

    lemma HeldParts()
      requires Shape()
      ensures start <= end <= data.Length && pending.nCopied <= pending.nData
      ensures Held() == Copied() + data[start..end] && |Held()| == |Copied()| + (end - start)
      ensures |Copied()| == if pending.data == null then 0 else pending.nCopied
    {
    }

    method MoveFds()
      requires Shape() && Scanned() && pending.data != null && start == end && fds.Some?
      requires Tracks(stream, Copied(), data[start..end]) && TracksFds(stream, pending.nCopied, false, None, fds)
      modifies this`fds, this`pending
      ensures Valid() && Held() == old(Held()) && pending == old(pending).(fds := old(fds)) && fds.None?
    {
      hide Tracks;
      hide TracksFds;
      hide NoLine;
      pending, fds := pending.(fds := fds), None;
    }

    lemma ClaimedFds(n: nat)
      requires Valid() && pending.data != null && n <= end - start
      ensures cursor == start && |Held()| == pending.nCopied + (end - start)
      ensures n < end - start ==> TracksFds(stream, pending.nCopied + n, true, fds, pending.fds)
      ensures n == end - start && (fds.None? || pending.fds.None?) ==>
        TracksFds(stream, pending.nCopied + n, false, None, if fds.Some? then fds else pending.fds)
      ensures Tracks(stream, Held(), [])
    {
      hide NoLine;
      assert |Held()| == |stream.received| - stream.taken && Held() + [] == Held();
      FdsMoved(stream, pending.nCopied, n, end - start, fds, pending.fds);
    }

    // The target is complete.
    method Finish(wanted: bool) returns (f: Option<FdSet>)
      requires Valid() && pending.data != null && pending.nCopied == pending.nData
      modifies this`pending, this`stream
      ensures Shape() && Valid() && pending == Target(null, 0, 0, 0, if wanted then None else old(pending.fds))
      ensures Held() == old(Held())[old(pending.nData)..] && cursor == start
      ensures old(pending.data)[old(pending.base)..old(pending.base + pending.nData)] ==
        old(Held())[..old(pending.nData)]
      ensures stream == Handed(old(stream), old(pending.nData), wanted)
      ensures Carried(stream.sets, old(stream.mark), stream.taken, if wanted then f else pending.fds)
      ensures (if wanted then f else pending.fds) == old(pending.fds)
    {
      hide NoLine;
      FdsHanded(stream, pending.nData, cursor < end, fds, pending.fds, wanted);
      HandedTracks(stream, Copied(), data[start..end], wanted);
      HeldParts();
      hide Tracks;
      hide TracksFds;
      hide Carried;
      hide Held;
      f := if wanted then pending.fds else None;
      stream := Handed(stream, pending.nData, wanted);
      pending := Target(null, 0, 0, 0, if wanted then None else pending.fds);
      hide Copied;
      WholeBuffer();
    }

    // the memcpy() from the buffer to the target
    method Transfer()
      requires Valid() && pending.data != null
      modifies this`start, this`cursor, this`pending, pending.data
      ensures Shape() && Scanned() && start == cursor
      ensures pending == old(pending).(nCopied := pending.nCopied)
      ensures start == end || pending.nCopied == pending.nData
      ensures pending.nCopied - old(pending.nCopied) == start - old(start)
      ensures Copied() + data[start..end] == old(Held())
      ensures pending.data[..pending.base] == old(pending.data[..pending.base])
      ensures pending.data[pending.base + pending.nData..] == old(pending.data[pending.base + pending.nData..])
    {
      hide *;
      Bounds();
      var n := if end - start < pending.nData - pending.nCopied then end - start else pending.nData - pending.nCopied;
      CopyToTarget(n);
      MoveOn(n);
    }

    lemma Bounds()
      requires Valid() && pending.data != null
      ensures Shape() && start <= end <= data.Length && pending.nCopied <= pending.nData && cursor == start &&
        stream.binary
      ensures pending.base + pending.nData <= pending.data.Length && pending.data != data
    {
    }

    // n bytes count as copied
    method MoveOn(n: nat)
      requires Shape() && start + n <= end && cursor == start && stream.binary
      requires pending.data != null && pending.nCopied + n <= pending.nData
      modifies this`start, this`cursor, this`pending
      ensures Shape() && Scanned() && start == cursor == old(start) + n
      ensures pending == old(pending).(nCopied := old(pending.nCopied) + n)
      ensures Copied() + data[start..end] ==
        old(pending.data[pending.base..pending.base + pending.nCopied + n] + data[start + n..end])
    {
      EmptyHasNoLine();
      start, cursor := start + n, start + n;
      pending := pending.(nCopied := pending.nCopied + n);
      assert data[start..cursor] == [];
    }

    method CopyToTarget(n: nat)
      requires Valid() && pending.data != null && n <= end - start && n <= pending.nData - pending.nCopied
      modifies pending.data
      ensures pending.data[pending.base..pending.base + pending.nCopied + n] + data[start + n..end] == old(Held())
      ensures data[start + n..end] == old(data[start + n..end])
      ensures pending.data[..pending.base] == old(pending.data[..pending.base])
      ensures pending.data[pending.base + pending.nData..] == old(pending.data[pending.base + pending.nData..])
      ensures Shape() && cursor == start && stream.binary
    {
      hide *;
      Bounds();
      TargetParts(n);
      ghost var all, before, held := data[..], pending.data[..], Held();
      var at := pending.base + pending.nCopied;
      CopyInto(pending.data, at, data, start, n);
      Spliced(before, pending.data[..], pending.base, at, n, pending.nData, all[start..start + n], all[start + n..end]);
      assert data[..] == all;
    }

    lemma TargetParts(n: nat)
      requires Valid() && pending.data != null && n <= end - start
      ensures Shape() && Held() ==
        pending.data[..][pending.base..pending.base + pending.nCopied] + data[..][start..start + n] +
          data[..][start + n..end]
    {
      assert data[start..end] == data[..][start..start + n] + data[..][start + n..end];
    }
  }

  lemma Slices<T>(s: seq<T>, from: nat, to: nat, n: nat)
    requires from + n <= to <= |s|
    ensures s[from..to][..n] == s[from..from + n] && s[from..to][n..] == s[from + n..to]
  {
  }

  lemma SamePart<T>(s: seq<T>, part: seq<T>, from: nat, n: nat)
    requires n <= |part| && from + |part| <= |s| && s[from..from + |part|] == part
    ensures s[from..from + n] == part[..n]
  {
  }

  lemma LineEnds(s: seq<Byte>, start: nat, end: nat, cursor: nat)
    requires start < cursor < end <= |s| && s[cursor] == '\n' && s[cursor - 1] == '\r'
    ensures EndsLine(s[start..end], cursor - start) && s[start..cursor] == s[start..end][..cursor - start]
  {
  }

  // chunk is written at a place behind base
  lemma Filled<T>(t: seq<T>, t': seq<T>, base: nat, at: nat, chunk: seq<T>)
    requires base <= at && at + |chunk| <= |t| == |t'|
    requires t'[..at] == t[..at] && t'[at..at + |chunk|] == chunk
    ensures t'[..base] == t[..base] && t'[base..at + |chunk|] == t[base..at] + chunk
  {
    assert t'[..at][..base] == t[..at][..base];
    assert t'[..at][base..] == t[..at][base..];
  }

  // piece replaces part of t, which lies between base and base + total
  lemma Spliced<T>(t: seq<T>, t': seq<T>, base: nat, at: nat, n: nat, total: nat, piece: seq<T>, rest: seq<T>)
    requires base <= at && at + n <= base + total <= |t| && |piece| == n
    requires t' == t[..at] + piece + t[at + n..]
    ensures t'[..base] == t[..base] && t'[base + total..] == t[base + total..]
    ensures t'[base..at + n] + rest == t[base..at] + piece + rest
  {
  }

  // n bytes are handed out, with the descriptors if those are wanted
  ghost function Handed(s: Stream, n: nat, wanted: bool): Stream {
    s.(taken := s.taken + n, mark := if wanted then s.taken + n else s.mark)
  }

  lemma HandedTracks(s: Stream, copied: seq<Byte>, buffered: seq<Byte>, wanted: bool)
    requires Tracks(s, copied, buffered)
    ensures Tracks(Handed(s, |copied|, wanted), [], buffered)
    ensures (copied + buffered)[..|copied|] == copied && (copied + buffered)[|copied|..] == buffered
  {
    assert [] + buffered == (copied + buffered)[|copied|..] == s.received[s.taken..][|copied|..] ==
      s.received[s.taken + |copied|..];
  }

  lemma TracksSplit(s: Stream, held: seq<Byte>, copied: seq<Byte>, buffered: seq<Byte>)
    requires Tracks(s, held, []) && held == copied + buffered
    ensures Tracks(s, copied, buffered)
  {
    assert held + [] == held;
  }

  // n of m buffered bytes go to the target
  lemma FdsMoved(s: Stream, nCopied: nat, n: nat, m: nat, fds: Option<FdSet>, pendingFds: Option<FdSet>)
    requires TracksFds(s, nCopied, 0 < m, fds, pendingFds)
    requires n <= m && s.mark <= s.taken && s.taken + nCopied + m == |s.received|
    ensures n < m ==> TracksFds(s, nCopied + n, true, fds, pendingFds)
    ensures n == m && (fds.None? || pendingFds.None?) && s.binary ==>
      TracksFds(s, nCopied + n, false, None, if fds.Some? then fds else pendingFds)
  {
    var from := s.taken + nCopied;
    if n < m {
      CarriedByLast(s.sets, from, from + n, from + m, fds);
      CarriedMore(s.sets, s.mark, from, from + n, pendingFds, None);
    } else if fds.None? || pendingFds.None? {
      CarriedMore(s.sets, s.mark, from, from + m, pendingFds, fds);
      CarriedNothing(s.sets, from + m);
    }
  }

  lemma FdsHanded(s: Stream, n: nat, unparsed: bool, fds: Option<FdSet>, pendingFds: Option<FdSet>, wanted: bool)
    requires TracksFds(s, n, unparsed, fds, pendingFds)
    ensures TracksFds(Handed(s, n, wanted), 0, unparsed, fds, if wanted then None else pendingFds)
    ensures Carried(s.sets, s.mark, s.taken + n, pendingFds)
  {
    CarriedNothing(s.sets, s.taken + n);
  }

  // the chunk, and the descriptors that were accepted with it
  ghost function Arrived(s: Stream, chunk: seq<Byte>, fs: Option<FdSet>): Stream {
    s.(received := s.received + chunk,
       sets := if fs.Some? && chunk != [] then s.sets[|s.received| + |chunk| - 1 := fs.value] else s.sets)
  }

  lemma TracksMore(s: Stream, copied: seq<Byte>, buffered: seq<Byte>, chunk: seq<Byte>, fs: Option<FdSet>)
    requires Tracks(s, copied, buffered)
    ensures Tracks(Arrived(s, chunk, fs), copied, buffered + chunk)
    ensures buffered == [] ==> Tracks(Arrived(s, chunk, fs), copied + chunk, [])
  {
    assert copied + (buffered + chunk) == (copied + buffered) + chunk == Arrived(s, chunk, fs).received[s.taken..];
    assert buffered == [] ==> copied + chunk + [] == copied + (buffered + chunk);
  }

  lemma BufferedFds(s: Stream, nCopied: nat, chunk: seq<Byte>, fs: Option<FdSet>, pendingFds: Option<FdSet>)
    requires s.mark <= s.taken && s.taken + nCopied <= |s.received| && chunk != []
    requires forall p :: p in s.sets ==> p < |s.received|
    requires TracksFds(s, nCopied, false, None, pendingFds)
    ensures TracksFds(Arrived(s, chunk, fs), nCopied, true, fs, pendingFds)
  {
    CarriedNew(s.sets, s.taken + nCopied, |s.received|, |chunk|, None, fs);
    var sets' := Arrived(s, chunk, fs).sets;
    if pendingFds.Some? {
      var p :| CarriedAt(s.sets, s.mark, s.taken + nCopied, pendingFds.value, p);
      assert CarriedAt(sets', s.mark, s.taken + nCopied, pendingFds.value, p);
    }
  }

  lemma TargetedFds(s: Stream, nCopied: nat, chunk: seq<Byte>, fs: Option<FdSet>, pendingFds: Option<FdSet>)
    requires s.mark <= s.taken && s.taken + nCopied == |s.received| && chunk != [] && s.binary
    requires forall p :: p in s.sets ==> p < |s.received|
    requires TracksFds(s, nCopied, false, None, pendingFds)
    ensures pendingFds.None? ==> TracksFds(Arrived(s, chunk, fs), nCopied + |chunk|, false, None, fs)
    ensures TracksFds(Arrived(s, chunk, None), nCopied + |chunk|, false, None, pendingFds)
  {
    CarriedNew(s.sets, s.mark, |s.received|, |chunk|, pendingFds, None);
    if pendingFds.None? {
      CarriedNew(s.sets, s.mark, |s.received|, |chunk|, None, fs);
    }
  }

  // a line of n bytes and its end are handed out
  ghost function PastLine(s: Stream, n: nat): Stream {
    s.(taken := s.taken + n + 2, mark := s.taken + n + 2)
  }

  lemma LineTracked(s: Stream, held: seq<Byte>, fds: Option<FdSet>, n: nat, parsed: seq<Byte>)
    requires Tracks(s, [], held) && TracksFds(s, 0, true, fds, None)
    requires n + 1 < |held| && EndsLine(held, n + 1) && parsed == held[..n + 1] && NoLine(parsed)
    requires fds.Some? ==> n + 2 < |held|
    ensures LineOf(held, n)
    ensures Tracks(PastLine(s, n), [], held[n + 2..]) && TracksFds(PastLine(s, n), 0, n + 2 < |held|, fds, None)
    ensures Carried(s.sets, s.mark, s.taken + n + 2, None)
    ensures !SetOnLine(s.sets, s.taken, held)
  {
    hide TracksFds;
    hide Carried;
    hide NoLine;
    hide SetOnLine;
    assert [] + held == held && [] + held[n + 2..] == s.received[s.taken..][n + 2..] == s.received[s.taken + n + 2..];
    LineFds(s, fds, n + 2);
    NoSetOnLine(s, held, n);
  }

  lemma NoSetOnLine(s: Stream, held: seq<Byte>, n: nat)
    requires LineOf(held, n) && s.mark <= s.taken && Carried(s.sets, s.mark, s.taken + n + 2, None)
    ensures !SetOnLine(s.sets, s.taken, held)
  {
  }

  // Descriptors wait at two places exactly if two sets came since the last hand-out.
  lemma SetsWaiting(s: Stream, nCopied: nat, unparsed: bool, fds: Option<FdSet>, pendingFds: Option<FdSet>, hi: nat)
    requires TracksFds(s, nCopied, unparsed, fds, pendingFds) && s.mark <= s.taken && s.taken + nCopied <= |s.received|
    requires forall p :: p in s.sets ==> p < |s.received|
    ensures TwoSets(s.sets, s.mark, hi) <==> fds.Some? && pendingFds.Some? && |s.received| <= hi
  {
    var mid := s.taken + nCopied;
    if TwoSets(s.sets, s.mark, hi) {
      var p, q :| p in s.sets && q in s.sets && s.mark <= p < q < hi;
      assert !(s.mark <= q < mid);
      assert mid <= q < |s.received|;
      assert !(mid <= p < |s.received|);
    }
    if fds.Some? && pendingFds.Some? {
      var p: nat :| CarriedAt(s.sets, s.mark, mid, pendingFds.value, p);
      assert p in s.sets && |s.received| - 1 in s.sets && p < |s.received| - 1;
    }
  }

  // a line of n bytes with its end, which does not reach to descriptors
  lemma LineFds(s: Stream, fds: Option<FdSet>, n: nat)
    requires s.mark <= s.taken && s.taken + n <= |s.received| && n > 0
    requires forall p :: p in s.sets ==> p < |s.received|
    requires TracksFds(s, 0, true, fds, None)
    requires fds.Some? ==> s.taken + n < |s.received|
    ensures TracksFds(s.(taken := s.taken + n, mark := s.taken + n), 0, s.taken + n < |s.received|, fds, None)
    ensures Carried(s.sets, s.mark, s.taken + n, None)
  {
    if fds.Some? {
      CarriedByLast(s.sets, s.taken, s.taken + n, |s.received|, fds);
    }
    CarriedMore(s.sets, s.mark, s.taken, s.taken + n, None, None);
    CarriedNothing(s.sets, s.taken + n);
  }
}
