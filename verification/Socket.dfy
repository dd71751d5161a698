/**
 Reading lines and messages from a socket (src/dbus/socket.c). Whatever the kernel hands over,
 the result is the first token of the unread bytes.
 */
module Socket {
  import opened Base
  import opened Bytes
  import InputQueue
  import Message
  import Output

  const HEADER_SIZE := Message.HEADER_SIZE

  datatype LineResult = Line(text: seq<Byte>) | NoLine | LineEof

  datatype MessageResult = Got | Nothing | Eof | QuotaExceeded

  // what recv() has to offer
  datatype Kernel =
    | Chunk(bytes: seq<Byte>, fds: Option<FdSet>)
    | EndOfFile
    | NothingYet
    | Failure

  ghost predicate SameStream(s: InputQueue.Stream, t: InputQueue.Stream) {
    s.received == t.received && s.sets == t.sets
  }

  lemma StreamKept(s: InputQueue.Stream)
    ensures SameStream(s, s) && SameStream(s.(taken := |s.received|, mark := |s.received|), s)
  {
  }

  // the descriptors of a read, unless they are dropped
  function Kept(dropped: bool, fds: Option<FdSet>): Option<FdSet> {
    if dropped then None else fds
  }

  predicate BadHeader(s: seq<Byte>) {
    |s| >= HEADER_SIZE && !Message.FrameOf(s[..HEADER_SIZE]).Frame?
  }

  // where the message ends that s starts with, as far as its header tells
  function MessageEnd(s: seq<Byte>): nat {
    if |s| >= HEADER_SIZE && Message.FrameOf(s[..HEADER_SIZE]).Frame?
    then Message.Size(Message.FrameOf(s[..HEADER_SIZE])) else |s|
  }

  // Two sets of descriptors came with the bytes of the first message of `unread`, which starts at
  // `at` in the stream.
  ghost predicate Crowded(sets: map<nat, FdSet>, at: nat, unread: seq<Byte>) {
    InputQueue.TwoSets(sets, at, at + MessageEnd(unread))
  }

  datatype ReadResult =
    | Read(n: nat)
    | Idle             // nothing to read, or unparsed bytes are left
    | HungUp
    | TooLong          // a line beyond the limit
    | Refused          // a quota is exceeded, or descriptors were cut off

  class Socket {
    const queue: InputQueue.IQueue
    const header: array<Byte>          // of the message that is read next
    const out: Output.Output
    var message: Message.Message?      // its header is complete
    var hupIn: bool

    ghost function MessageRepr(): set<object>
      reads this
    {
      if message == null then {} else {message, message.data, message.patch}
    }

    // The target of the queue is the header, or the rest of the message.
    ghost predicate Targeted()
      reads this, queue, MessageRepr()
    {
      if message == null then
        && (queue.pending.data != null ==>
           queue.pending.data == header && queue.pending.base == 0 && queue.pending.nData == HEADER_SIZE)
        && queue.stream.mark == queue.stream.taken
      else
        && queue.stream.binary && queue.pending.data == message.data && queue.pending.base == HEADER_SIZE
        && queue.pending.nData + HEADER_SIZE == message.nData == message.data.Length
        && queue.stream.mark + HEADER_SIZE == queue.stream.taken
        && Message.FrameOf(message.data[..HEADER_SIZE]).Frame?
        && message.nData == Message.Size(Message.FrameOf(message.data[..HEADER_SIZE]))
    }

    ghost predicate Valid()
      reads this, queue, queue.buffer, queue.data, queue.pending.data, header, MessageRepr()
    {
      && header.Length == HEADER_SIZE && header != queue.buffer && header != queue.data
      && (message != null ==>
            && message.Valid() && message.data != header
            && message.data != queue.buffer && message.data != queue.data)
      && queue.Valid()
      && Targeted()
    }

    // everything that was read and not returned yet
    ghost function Unread(): seq<Byte>
      requires Valid()
      reads this, queue, queue.buffer, queue.data, queue.pending.data, header, MessageRepr()
    {
      (if message == null then [] else message.data[..HEADER_SIZE]) + queue.Held()
    }

    // Descriptors that come with the next read are dropped: it goes directly into a message, since its
    // header is complete and much of it is missing, and a set waits with that message already.
    ghost predicate DropsFds()
      requires Valid()
      reads this, queue, queue.buffer, queue.data, queue.pending.data, header, MessageRepr()
    {
      && message != null && message.nData - |Unread()| >= InputQueue.RECV_MAX
      && exists p :: p in queue.stream.sets && queue.stream.mark <= p
    }

    // socket_init()
    constructor ()
      ensures Valid() && Unread() == [] && queue.stream == InputQueue.NOTHING && !hupIn
      ensures message == null && queue.pending.data == null && queue.cursor == queue.start
      ensures fresh(queue) && fresh(queue.buffer) && queue.data == queue.buffer && fresh(header) && fresh(out) &&
        out.Valid() && !out.messages
    {
      queue := new InputQueue.IQueue();
      header := new Byte[HEADER_SIZE];
      out := new Output.Output();
      message, hupIn := null, false;
    }

    // enough of the invariant for closing
    ghost predicate Closable()
      reads this, queue
    {
      && queue.Shape() && queue.stream.taken <= |queue.stream.received|
      && (forall p :: p in queue.stream.sets ==> p < |queue.stream.received|)
      && header.Length == HEADER_SIZE && header != queue.buffer && header != queue.data
    }

    // socket_close()
    method Close()
      requires Closable() && out.Valid()
      modifies this`message, this`hupIn, queue, out`shutdown, out`hupOut, out`queue
      ensures Valid() && Unread() == [] && hupIn && message == null
      ensures out.Valid() && out.shutdown && out.queue == old(out.queue)
      ensures queue.stream ==
        old(queue.stream).(taken := |old(queue.stream.received)|, mark := |old(queue.stream.received)|)
      ensures queue.data == old(queue.data)
    {
      hide Output.Output.Valid;
      hide Message.FrameOf;
      hupIn := true;
      out.Shutdown();
      queue.Flush();
      message := null;
    }

    // socket_dispatch_read(): some of what the kernel offers is read
    method DispatchRead(kernel: Kernel) returns (r: ReadResult)
      requires Valid() && out.Valid() && (kernel.Chunk? ==> kernel.bytes != [])
      modifies this`message, this`hupIn, queue, queue.data, queue.buffer, queue.pending.data, out`shutdown,
        out`hupOut, out`queue
      ensures Valid() && out.Valid()
      ensures queue.data == old(queue.data) || queue.data == queue.buffer || fresh(queue.data)
      ensures r.Read? ==> kernel.Chunk? && 0 < r.n <= |kernel.bytes| && Unread() == old(Unread()) + kernel.bytes[..r.n]
      ensures r.Read? ==> !hupIn
      ensures r.Read? ==>
        queue.stream == InputQueue.Arrived(old(queue.stream), kernel.bytes[..r.n], Kept(old(DropsFds()), kernel.fds))
      ensures !r.Read? ==> SameStream(queue.stream, old(queue.stream))
      ensures r.Read? || r.Idle? || r.HungUp? ==> queue.stream.mark == old(queue.stream.mark)
      ensures r.Idle? || r.HungUp? ==> Unread() == old(Unread())
      ensures r.TooLong? || r.Refused? ==> Unread() == [] && hupIn && out.shutdown
      ensures r.HungUp? ==> hupIn && (old(hupIn) || kernel.EndOfFile? || kernel.Failure?)
      ensures r.HungUp? && !old(hupIn) && kernel.Failure? ==> out.hupOut
      ensures r.Idle? ==> !hupIn && (old(queue.cursor) < old(queue.end) || kernel.NothingYet?)
      ensures old(hupIn) ==> r.HungUp?
      ensures !old(hupIn) && old(queue.cursor) == old(queue.end) && !r.TooLong? && !r.Refused? ==>
        && (kernel.NothingYet? <==> r.Idle?) && (kernel.Chunk? <==> r.Read?)
        && (kernel.EndOfFile? || kernel.Failure? <==> r.HungUp?)
      ensures r.Read? || r.Idle? || (r.HungUp? && (old(hupIn) || kernel.EndOfFile?)) ==>
        out.queue == old(out.queue) && out.hupOut == old(out.hupOut) && out.shutdown == old(out.shutdown)
      ensures r.TooLong? ==>
        !queue.stream.binary && InputQueue.NoLine(old(Unread())) && |old(Unread())| >= InputQueue.LINE_MAX
      ensures queue.stream.binary == old(queue.stream.binary)
    {
      hide *;
      StreamKept(queue.stream);
      if hupIn {
        return HungUp;
      }
      var cursor := Prepare();
      match cursor
      case NotRead =>
        return Idle;
      case QuotaExceeded =>
        Close();
        return Refused;
      case LineTooLong =>
        Close();
        return TooLong;
      case _ =>
        r := Receive(cursor, kernel);
    }

    // the buffer is made ready for reading
    method Prepare() returns (c: InputQueue.Cursor)
      requires Valid()
      modifies queue`data, queue`start, queue`end, queue`cursor, queue.data, queue.buffer
      ensures Valid() && Unread() == old(Unread()) && DropsFds() == old(DropsFds()) && queue.ReadyFor(c)
      ensures queue.data == old(queue.data) || queue.data == queue.buffer || fresh(queue.data)
      ensures c == InputQueue.LineTooLong ==>
        !queue.stream.binary && InputQueue.NoLine(old(Unread())) && |old(Unread())| >= InputQueue.LINE_MAX
      ensures c.IntoTarget? ==> message != null
      ensures c.IntoBuffer? || c.IntoTarget? ==> (c.IntoTarget? <==>
        queue.pending.data != null && queue.pending.nData - queue.pending.nCopied >= InputQueue.RECV_MAX)
      ensures c.IntoBuffer? || c.IntoTarget? ==> (Direct(c) <==> DropsFds())
      ensures c == InputQueue.NotRead <==> old(queue.cursor) < old(queue.end)
      ensures queue.pending.data != null ==>
        c == InputQueue.NotRead || c.IntoTarget? || c == InputQueue.IntoBuffer(InputQueue.RECV_MAX)
      ensures c.IntoBuffer? && queue.pending.data != null ==> queue.end == 0
      ensures Closable()
    {
      hide InputQueue.IQueue.Held;
      hide InputQueue.NoLine;
      hide InputQueue.TracksFds;
      ScannedAll();
      c := queue.GetCursor();
      ValidIsClosable();
      if c.IntoBuffer? || c.IntoTarget? {
        DirectDrops(c);
      }
    }

    // Nothing is left in the buffer: the next bytes are needed for the header or for the message.
    ghost predicate Waiting()
      reads queue
    {
      queue.cursor == queue.end && queue.pending.data != null
    }

    // what the next read may return
    ghost function Room(): nat
      requires Valid()
      reads this, queue, queue.buffer, queue.data, queue.pending.data, header, MessageRepr()
    {
      if message != null && message.nData - |Unread()| >= InputQueue.RECV_MAX then message.nData - |Unread()|
      else InputQueue.RECV_MAX
    }

    // a read that returns just this chunk
    method ReadChunk(chunk: seq<Byte>, fds: Option<FdSet>)
      requires Valid() && Waiting() && 0 < |chunk| <= Room()
      modifies queue, queue.data, queue.buffer, queue.pending.data
      ensures Valid() && Unread() == old(Unread()) + chunk
      ensures queue.stream == InputQueue.Arrived(old(queue.stream), chunk, Kept(old(DropsFds()), fds))
      ensures queue.data == old(queue.data) || queue.data == queue.buffer || fresh(queue.data)
      ensures queue.stream.binary ==> queue.cursor == queue.start
    {
      var c := Prepare();
      Fits(c, |chunk|);
      AppendChunk(c, chunk, fds);
      CursorStays();
    }

    lemma Fits(c: InputQueue.Cursor, n: nat)
      requires Valid() && queue.ReadyFor(c) && queue.pending.data != null && n <= Room()
      requires c.IntoTarget? || (c == InputQueue.IntoBuffer(InputQueue.RECV_MAX) && queue.end == 0)
      requires c.IntoTarget? <==> queue.pending.nData - queue.pending.nCopied >= InputQueue.RECV_MAX
      ensures if c.IntoTarget? then queue.pending.nCopied + n <= c.to else queue.end + n <= c.to
    {
      if message != null {
        assert |Unread()| == HEADER_SIZE + queue.pending.nCopied;
      }
    }

    lemma CursorStays()
      requires Valid() && queue.stream.binary
      ensures queue.cursor == queue.start
    {
    }

    // a read into a message with which a set waits
    ghost predicate Direct(c: InputQueue.Cursor)
      reads queue
    {
      c.IntoTarget? && queue.pending.fds.Some?
    }

    lemma DirectDrops(c: InputQueue.Cursor)
      requires Valid() && queue.ReadyFor(c) && (c.IntoBuffer? || c.IntoTarget?)
      requires c.IntoTarget? <==>
        queue.pending.data != null && queue.pending.nData - queue.pending.nCopied >= InputQueue.RECV_MAX
      ensures Direct(c) <==> DropsFds()
    {
      var s := queue.stream;
      if message != null {
        assert |Unread()| == HEADER_SIZE + queue.pending.nCopied == |s.received| - s.mark;
        if p :| p in s.sets && s.mark <= p {
          assert p < |s.received|;
        }
      }
    }

    lemma ScannedAll()
      requires Valid()
      ensures queue.cursor == queue.end && queue.pending.data == null && |queue.Held()| > 0 ==>
        !queue.stream.binary && Unread() == queue.Held() && InputQueue.NoLine(queue.Held())
    {
      if queue.cursor == queue.end && queue.pending.data == null && |queue.Held()| > 0 {
        assert queue.Held() == queue.data[queue.start..queue.cursor];
      }
    }

    // socket_recvmsg()
    method Receive(c: InputQueue.Cursor, kernel: Kernel) returns (r: ReadResult)
      requires Valid() && out.Valid() && queue.ReadyFor(c) && (kernel.Chunk? ==> kernel.bytes != []) && !hupIn
      requires c.IntoBuffer? || (c.IntoTarget? && message != null)
      modifies this`message, this`hupIn, queue, queue.data, queue.pending.data, out`shutdown, out`hupOut, out`queue
      ensures Valid() && out.Valid() && queue.data == old(queue.data)
      ensures r.Read? ==> kernel.Chunk? && 0 < r.n <= |kernel.bytes| && Unread() == old(Unread()) + kernel.bytes[..r.n]
      ensures r.Read? ==> !hupIn
      ensures r.Read? ==>
        queue.stream == InputQueue.Arrived(old(queue.stream), kernel.bytes[..r.n], Kept(old(Direct(c)), kernel.fds))
      ensures !r.Read? ==> SameStream(queue.stream, old(queue.stream))
      ensures r.Read? || r.Idle? || r.HungUp? ==> queue.stream.mark == old(queue.stream.mark)
      ensures r.Idle? || r.HungUp? ==> Unread() == old(Unread())
      ensures r.HungUp? <==> kernel.EndOfFile? || kernel.Failure?
      ensures r.Idle? <==> kernel.NothingYet?
      ensures hupIn <==> r.HungUp? || r.Refused?
      ensures kernel.Failure? ==> out.hupOut
      ensures r.Read? || r.Idle? || kernel.EndOfFile? ==>
        out.queue == old(out.queue) && out.hupOut == old(out.hupOut) && out.shutdown == old(out.shutdown)
      ensures r.Refused? ==> out.shutdown && kernel.Chunk? && kernel.fds.Some?
      ensures r.Refused? ==> Unread() == []
      ensures !r.TooLong? && queue.stream.binary == old(queue.stream.binary)
    {
      hide InputQueue.IQueue.Valid;
      hide InputQueue.IQueue.Held;
      hide Message.FrameOf;
      match kernel
      case NothingYet =>
        return Idle;
      case EndOfFile =>
        hupIn := true;
        return HungUp;
      case Failure =>
        hupIn := true;
        out.Hangup();
        return HungUp;
      case Chunk(bytes, fds) =>
        r := ReceiveChunk(c, bytes, fds);
    }

    // some bytes, perhaps with descriptors
    method ReceiveChunk(c: InputQueue.Cursor, bytes: seq<Byte>, fds: Option<FdSet>) returns (r: ReadResult)
      requires Valid() && out.Valid() && queue.ReadyFor(c) && bytes != [] && !hupIn
      requires c.IntoBuffer? || (c.IntoTarget? && message != null)
      modifies this`message, this`hupIn, queue, queue.data, queue.pending.data, out`shutdown, out`hupOut, out`queue
      ensures Valid() && out.Valid() && queue.data == old(queue.data)
      ensures r.Read? || r.Refused?
      ensures r.Read? ==> 0 < r.n <= |bytes| && Unread() == old(Unread()) + bytes[..r.n]
      ensures r.Read? ==> !hupIn
      ensures r.Read? ==>
        queue.stream == InputQueue.Arrived(old(queue.stream), bytes[..r.n], Kept(old(Direct(c)), fds))
      ensures r.Refused? ==> SameStream(queue.stream, old(queue.stream)) && Unread() == [] && hupIn && out.shutdown
      ensures r.Refused? ==> fds.Some?
      ensures r.Read? ==>
        out.queue == old(out.queue) && out.hupOut == old(out.hupOut) && out.shutdown == old(out.shutdown)
      ensures queue.stream.binary == old(queue.stream.binary)
    {
      ValidIsClosable();
      RoomToRead(c);
      hide Valid;
      hide Unread;
      hide InputQueue.IQueue.ReadyFor;
      var accepted: bool := *;
      if fds.Some? && !accepted {
        Close();
        return Refused;
      }
      var room: nat := if c.IntoBuffer? then c.to - queue.end else c.to - queue.pending.nCopied;
      assert |bytes| >= 1;
      var n: nat :| 1 <= n && n <= room && n <= |bytes|;
      AppendChunk(c, bytes[..n], fds);
      return Read(n);
    }

    lemma RoomToRead(c: InputQueue.Cursor)
      requires Valid() && queue.ReadyFor(c) && (c.IntoBuffer? || c.IntoTarget?)
      ensures if c.IntoBuffer? then queue.end < c.to else queue.pending.nCopied < c.to
    {
    }

    method AppendChunk(c: InputQueue.Cursor, chunk: seq<Byte>, fds: Option<FdSet>)
      requires Valid() && queue.ReadyFor(c) && chunk != []
      requires match c case IntoBuffer(to) => queue.end + |chunk| <= to
                       case IntoTarget(to) => message != null && queue.pending.nCopied + |chunk| <= to
                       case _ => false
      modifies queue, queue.data, queue.pending.data
      ensures Valid() && Unread() == old(Unread()) + chunk && queue.data == old(queue.data)
      ensures queue.stream == InputQueue.Arrived(old(queue.stream), chunk, Kept(old(Direct(c)), fds))
    {
      hide InputQueue.IQueue.Held;
      hide InputQueue.IQueue.Scanned;
      hide InputQueue.Tracks;
      hide InputQueue.TracksFds;
      hide Message.FrameOf;
      ghost var head, held := if message == null then [] else message.data[..HEADER_SIZE], queue.Held();
      ConcatAssociates(head, held, chunk);
      queue.Append(c, chunk, fds);
      assert message != null ==> message.data[..HEADER_SIZE] == head;
    }

    // socket_dequeue_line()
    method DequeueLine() returns (r: LineResult)
      requires Valid() && out.Valid() && !queue.stream.binary
      modifies this`message, this`hupIn, queue, queue.data, out`shutdown, out`hupOut, out`queue
      ensures out.queue == old(out.queue)
      ensures Valid() && out.Valid() && !queue.stream.binary && queue.stream.received == old(queue.stream.received)
      ensures r.Line? ==> InputQueue.LineOf(old(Unread()), |r.text|) && r.text == old(Unread())[..|r.text|]
      ensures |old(Unread())| <= InputQueue.LINE_MAX && queue.stream.sets == old(queue.stream.sets) &&
        queue.data == old(queue.data)
      ensures r.Line? ==>
        Unread() == old(Unread())[|r.text| + 2..] && queue.cursor == queue.start && hupIn == old(hupIn)
      ensures r.Line? ==> queue.stream.mark == old(queue.stream.mark) + |r.text| + 2
      ensures r == NoLine ==> InputQueue.NoLine(Unread()) && Unread() == old(Unread()) && !hupIn && !old(hupIn)
      ensures r == NoLine ==> queue.stream.mark == old(queue.stream.mark)
      ensures r == LineEof ==> hupIn
      ensures r == LineEof <==>
        || InputQueue.SetOnLine(old(queue.stream.sets), old(queue.stream.mark), old(Unread()))
        || (old(hupIn) && InputQueue.NoLine(old(Unread())))
    {
      NotBoth(Unread());
      hide InputQueue.SetOnLine;
      hide InputQueue.IQueue.Valid;
      hide InputQueue.IQueue.Held;
      hide InputQueue.LineOf;
      hide InputQueue.NoLine;
      var result, line := PopLine();
      match result
      case Done =>
        return Line(line);
      case Pending =>
        return if hupIn then LineEof else NoLine;
      case Violation =>
        Refuse();
        return LineEof;
    }

    method PopLine() returns (r: InputQueue.PopResult, line: seq<Byte>)
      requires Valid() && !queue.stream.binary
      modifies queue`start, queue`cursor, queue`stream, queue.data
      ensures Valid() && Closable() && SameStream(queue.stream, old(queue.stream)) && !queue.stream.binary
      ensures r == InputQueue.Done ==> InputQueue.LineOf(old(Unread()), |line|) && line == old(Unread())[..|line|]
      ensures r == InputQueue.Done ==> Unread() == old(Unread())[|line| + 2..] && queue.cursor == queue.start
      ensures r == InputQueue.Pending ==> InputQueue.NoLine(Unread()) && Unread() == old(Unread())
      ensures r == InputQueue.Done ==> queue.stream.mark == old(queue.stream.mark) + |line| + 2
      ensures r == InputQueue.Pending ==> queue.stream.mark == old(queue.stream.mark)
      ensures r == InputQueue.Violation <==>
        InputQueue.SetOnLine(old(queue.stream.sets), old(queue.stream.mark), old(Unread()))
      ensures |old(Unread())| <= InputQueue.LINE_MAX
    {
      hide InputQueue.SetOnLine;
      UnreadIsHeld();
      hide InputQueue.IQueue.Valid;
      hide InputQueue.IQueue.Held;
      hide InputQueue.LineOf;
      hide InputQueue.NoLine;
      r, line := queue.PopLine();
      ValidIsClosable();
    }

    // descriptors where there must not be any
    method Refuse()
      requires Closable() && out.Valid()
      modifies this`message, this`hupIn, queue, out`shutdown, out`hupOut, out`queue
      ensures Valid() && Unread() == [] && hupIn && out.Valid() && out.queue == old(out.queue)
      ensures queue.stream.sets == old(queue.stream.sets) && queue.stream.received == old(queue.stream.received)
      ensures queue.stream.binary == old(queue.stream.binary) && queue.data == old(queue.data)
    {
      Close();
    }

    lemma UnreadIsHeld()
      requires Valid() && message == null
      ensures queue.Shape() && Unread() == queue.Held()
      ensures !queue.stream.binary ==> |Unread()| <= InputQueue.LINE_MAX
      ensures queue.stream.mark == queue.stream.taken
    {
    }

    lemma ValidIsClosable()
      requires Valid()
      ensures Closable()
    {
    }

    // the target for a header, unless a target is there already
    method EnsureTarget() returns (ok: bool)
      requires Valid() && queue.cursor == queue.start
      modifies queue`pending, queue`stream
      ensures Valid() && Unread() == old(Unread())
      ensures ok ==> queue.pending.data != null && queue.stream == old(queue.stream).(binary := true)
    {
      ok := true;
      if queue.pending.data == null {
        ok := queue.SetTarget(header, 0, HEADER_SIZE);
      }
    }

    // the first half of socket_dequeue(): the header, and the message that it announces
    method ReadHeader() returns (r: MessageResult)
      requires Valid() && out.Valid() && message == null && queue.pending.data != null
      modifies this`message, this`hupIn, queue, header, out`shutdown, out`hupOut, out`queue
      ensures out.Valid() && queue.data == old(queue.data)
      ensures r == QuotaExceeded ==> Closable()
      ensures r != QuotaExceeded ==> Valid() && SameStream(queue.stream, old(queue.stream)) && queue.stream.binary
      ensures r == Got ==> message != null && fresh(MessageRepr()) && Unread() == old(Unread())
      ensures r == Got ==> queue.stream.mark == old(queue.stream.mark) && hupIn == old(hupIn) && message.fds.None?
      ensures r == Nothing ==>
        message == null && Unread() == old(Unread()) && |Unread()| < HEADER_SIZE && hupIn == old(hupIn)
      ensures r == Nothing ==> Waiting()
      ensures r == Nothing ==> queue.stream.mark == old(queue.stream.mark)
      ensures r == Eof ==> hupIn && Unread() == []
      ensures r == Eof ==> Crowded(queue.stream.sets, old(queue.stream.mark), old(Unread())) || BadHeader(old(Unread()))
      ensures r == Nothing ==> !Crowded(queue.stream.sets, old(queue.stream.mark), old(Unread()))
    {
      HeaderCrowded();
      hide Crowded;
      hide InputQueue.TwoSets;
      hide InputQueue.IQueue.Valid;
      hide InputQueue.IQueue.Held;
      hide Message.FrameOf;
      var result := PopHeader();
      match result
      case Pending =>
        return Nothing;
      case Violation =>
        Refuse();
        return Eof;
      case Done =>
        ghost var unread := header[..] + queue.Held();
        assert unread[..HEADER_SIZE] == header[..];
        r := NewMessage();
    }

    lemma HeaderCrowded()
      requires Valid() && message == null && queue.pending.data != null
      ensures var s := queue.stream;
        InputQueue.TwoSets(s.sets, s.mark, s.mark + HEADER_SIZE) ==>
          Crowded(s.sets, s.mark, Unread()) || BadHeader(Unread())
      ensures var s := queue.stream;
        |Unread()| < HEADER_SIZE && Crowded(s.sets, s.mark, Unread()) ==>
          InputQueue.TwoSets(s.sets, s.mark, s.mark + HEADER_SIZE)
    {
      UnreadIsHeld();
      var s, unread := queue.stream, Unread();
      assert |unread| == |s.received| - s.mark;
      if InputQueue.TwoSets(s.sets, s.mark, s.mark + HEADER_SIZE) && !BadHeader(unread) {
        var p, q :| p in s.sets && q in s.sets && s.mark <= p < q < s.mark + HEADER_SIZE;
        assert q < s.mark + MessageEnd(unread);
      }
    }

    method PopHeader() returns (r: InputQueue.PopResult)
      requires Valid() && message == null && queue.pending.data != null
      modifies queue`start, queue`cursor, queue`fds, queue`pending, queue`stream, header
      ensures Closable() && SameStream(queue.stream, old(queue.stream)) && queue.stream.binary
      ensures r == InputQueue.Violation <==>
        InputQueue.TwoSets(old(queue.stream.sets), old(queue.stream.mark), old(queue.stream.mark) + HEADER_SIZE)
      ensures r == InputQueue.Pending ==> queue.stream.mark == old(queue.stream.mark)
      ensures r == InputQueue.Pending ==> Valid() && Unread() == old(Unread()) && |Unread()| < HEADER_SIZE && Waiting()
      ensures r == InputQueue.Done ==> queue.Valid() && queue.pending.data == null && queue.cursor == queue.start
      ensures r == InputQueue.Done ==> header[..] + queue.Held() == old(Unread())
      ensures r == InputQueue.Done ==> queue.stream.mark == old(queue.stream.mark) == queue.stream.taken - HEADER_SIZE
    {
      hide InputQueue.TwoSets;
      ValidIsClosable();
      ghost var held := queue.Held();
      PopHeaderFacts();
      hide InputQueue.IQueue.Held;
      hide InputQueue.IQueue.Valid;
      hide InputQueue.Carried;
      var none;
      r, none := queue.PopData(false);
      if r == InputQueue.Done {
        assert header[..] == header[0..HEADER_SIZE] == held[..HEADER_SIZE];
      }
    }

    lemma PopHeaderFacts()
      requires Valid() && message == null && queue.pending.data != null
      ensures queue.stream.binary && queue.Valid() && Unread() == queue.Held()
      ensures queue.pending.data == header && queue.pending.base == 0 && queue.pending.nData == HEADER_SIZE
      ensures queue.stream.mark == queue.stream.taken
    {
    }

    method NewMessage() returns (r: MessageResult)
      requires queue.Valid() && Closable() && out.Valid() && message == null
      requires queue.pending.data == null && queue.cursor == queue.start && queue.stream.binary
      requires queue.stream.mark + HEADER_SIZE == queue.stream.taken
      modifies this`message, this`hupIn, queue, out`shutdown, out`hupOut, out`queue
      ensures out.Valid() && queue.data == old(queue.data)
      ensures r == Eof || r == Got || r == QuotaExceeded
      ensures r == QuotaExceeded ==> Closable()
      ensures r != QuotaExceeded ==> Valid() && SameStream(queue.stream, old(queue.stream)) && queue.stream.binary
      ensures r == Got ==> message != null && fresh(MessageRepr())
      ensures r == Got ==> Unread() == header[..] + old(queue.Held())
      ensures r == Got ==> queue.stream.mark == old(queue.stream.mark) && hupIn == old(hupIn) && message.fds.None?
      ensures r == Eof ==> hupIn && Unread() == [] && !Message.FrameOf(header[..]).Frame?
    {
      hide Output.Output.Valid;
      StreamKept(queue.stream);
      hide InputQueue.IQueue.Valid;
      hide InputQueue.IQueue.Held;
      hide Message.FrameOf;
      if !Message.FrameOf(header[..]).Frame? {
        Close();
        return Eof;
      }
      var m := new Message.Message(header[..]);
      var ok := queue.SetTarget(m.data, HEADER_SIZE, m.nData - HEADER_SIZE);
      if !ok {
        return QuotaExceeded;
      }
      message := m;
      return Got;
    }

    // the second half of socket_dequeue(): the rest of the message
    method ReadBody() returns (r: MessageResult, m: Message.Message?)
      requires Valid() && out.Valid() && message != null
      modifies this`message, this`hupIn, queue, message`fds, message.data, out`shutdown, out`hupOut, out`queue
      ensures Valid() && out.Valid() && SameStream(queue.stream, old(queue.stream)) && queue.stream.binary
      ensures queue.data == old(queue.data) && r != QuotaExceeded
      ensures r == Got ==> m == old(message) && message == null && |old(Unread())| >= m.nData
      ensures r == Got ==> m.data[..] == old(Unread())[..m.nData] && Unread() == old(Unread())[m.nData..]
      ensures r == Got ==> queue.stream.mark == old(queue.stream.mark) + m.nData && hupIn == old(hupIn)
      ensures r == Got ==> InputQueue.Carried(queue.stream.sets, old(queue.stream.mark), queue.stream.mark, m.fds)
      ensures r == Nothing ==>
        message == old(message) && Unread() == old(Unread()) && |Unread()| < message.nData && hupIn == old(hupIn)
      ensures r == Nothing ==> Waiting()
      ensures r == Nothing ==> queue.stream.mark == old(queue.stream.mark)
      ensures r == Eof ==> hupIn && Unread() == []
      ensures r == Eof <==> InputQueue.TwoSets(old(queue.stream.sets), old(queue.stream.mark),
        old(queue.stream.mark) + old(message.nData))
    {
      hide InputQueue.TwoSets;
      hide InputQueue.IQueue.Valid;
      hide InputQueue.IQueue.Held;
      hide InputQueue.Carried;
      hide Message.FrameOf;
      m := message;
      var result, fds := PopBody();
      match result
      case Pending =>
        return Nothing, null;
      case Violation =>
        Refuse();
        return Eof, null;
      case Done =>
        m.fds := fds;
        message := null;
        return Got, m;
    }

    method PopBody() returns (r: InputQueue.PopResult, f: Option<FdSet>)
      requires Valid() && message != null
      modifies queue`start, queue`cursor, queue`fds, queue`pending, queue`stream, message.data
      ensures Closable() && SameStream(queue.stream, old(queue.stream)) && queue.stream.binary && message.Valid()
      ensures r == InputQueue.Violation <==>
        InputQueue.TwoSets(old(queue.stream.sets), old(queue.stream.mark), old(queue.stream.mark) + message.nData)
      ensures r == InputQueue.Pending ==> queue.stream.mark == old(queue.stream.mark)
      ensures r == InputQueue.Pending ==>
        Valid() && Unread() == old(Unread()) && |Unread()| < message.nData && Waiting()
      ensures r == InputQueue.Done ==> queue.Valid() && queue.pending.data == null && |old(Unread())| >= message.nData
      ensures r == InputQueue.Done ==>
        message.data[..] == old(Unread())[..message.nData] && queue.Held() == old(Unread())[message.nData..]
      ensures r == InputQueue.Done ==> queue.stream.mark == queue.stream.taken == old(queue.stream.mark) + message.nData
      ensures r == InputQueue.Done ==>
        InputQueue.Carried(queue.stream.sets, old(queue.stream.mark), queue.stream.mark, f)
    {
      hide InputQueue.TwoSets;
      hide InputQueue.Carried;
      hide Message.FrameOf;
      ValidIsClosable();
      PopBodyFacts();
      hide InputQueue.IQueue.Held;
      hide InputQueue.IQueue.Valid;
      hide InputQueue.IQueue.Shape;
      r, f := PopRest(message.data);
    }

    // what is missing of the data of a message
    method PopRest(data: array<Byte>) returns (r: InputQueue.PopResult, f: Option<FdSet>)
      requires queue.Valid() && queue.stream.binary
      requires queue.pending.data == data && queue.pending.base == HEADER_SIZE &&
        queue.pending.nData + HEADER_SIZE == data.Length
      requires queue.stream.mark + HEADER_SIZE == queue.stream.taken
      modifies queue`start, queue`cursor, queue`fds, queue`pending, queue`stream, data
      ensures queue.Shape() && queue.data[..] == old(queue.data[..]) && data[..HEADER_SIZE] == old(data[..HEADER_SIZE])
      ensures SameStream(queue.stream, old(queue.stream)) && queue.stream.binary
      ensures queue.stream.taken <= |queue.stream.received|
      ensures r == InputQueue.Violation <==>
        InputQueue.TwoSets(old(queue.stream.sets), old(queue.stream.mark), old(queue.stream.mark) + data.Length)
      ensures r == InputQueue.Pending ==>
        queue.Valid() && queue.stream == old(queue.stream) && queue.Held() == old(queue.Held())
      ensures r == InputQueue.Pending ==> queue.cursor == queue.end
      ensures r == InputQueue.Pending ==> |queue.Held()| < data.Length - HEADER_SIZE
      ensures r == InputQueue.Pending ==>
        queue.pending.data == data && queue.pending.base == HEADER_SIZE &&
          queue.pending.nData + HEADER_SIZE == data.Length
      ensures r == InputQueue.Done ==>
        queue.Valid() && queue.pending.data == null && |old(queue.Held())| >= data.Length - HEADER_SIZE
      ensures r == InputQueue.Done ==>
        data[..] == (old(data[..HEADER_SIZE]) + old(queue.Held()))[..data.Length]
        && queue.Held() == (old(data[..HEADER_SIZE]) + old(queue.Held()))[data.Length..]
      ensures r == InputQueue.Done ==> queue.stream.mark == queue.stream.taken == old(queue.stream.mark) + data.Length
      ensures r == InputQueue.Done ==>
        InputQueue.Carried(queue.stream.sets, old(queue.stream.mark), queue.stream.mark, f)
    {
      TakenBounded();
      ghost var head, held := data[..HEADER_SIZE], queue.Held();
      hide InputQueue.TwoSets;
      hide InputQueue.Carried;
      hide InputQueue.IQueue.Held;
      hide InputQueue.IQueue.Valid;
      r, f := queue.PopData(true);
      if r == InputQueue.Done {
        TakenBounded();
        Completed(data[..], head, held);
      }
    }

    lemma TakenBounded()
      requires queue.Valid()
      ensures queue.stream.taken <= |queue.stream.received|
    {
    }

    lemma PopBodyFacts()
      requires Valid() && message != null
      ensures queue.stream.binary && queue.Valid() && Unread() == message.data[..HEADER_SIZE] + queue.Held()
      ensures queue.pending.data == message.data && queue.pending.base == HEADER_SIZE
      ensures queue.pending.nData + HEADER_SIZE == message.nData == message.data.Length
      ensures queue.stream.mark + HEADER_SIZE == queue.stream.taken
    {
    }

    lemma UnreadStartsWithHeader()
      requires Valid() && message != null
      ensures WholeMessage(Unread(), message.nData) || (|Unread()| < message.nData && PartOfMessage(Unread()))
      ensures MessageEnd(Unread()) == message.nData
    {
      assert Unread()[..HEADER_SIZE] == message.data[..HEADER_SIZE];
    }

    // socket_dequeue(): the first message of the unread bytes, with the descriptors that came
    // with any of its bytes
    method Dequeue() returns (r: MessageResult, m: Message.Message?)
      requires Valid() && out.Valid() && queue.cursor == queue.start
      modifies this`message, this`hupIn, queue, header, out`shutdown, out`hupOut, out`queue, MessageRepr()
      ensures out.Valid() && queue.data == old(queue.data)
      ensures r == QuotaExceeded ==> Closable()
      ensures r != QuotaExceeded ==> Valid() && SameStream(queue.stream, old(queue.stream)) && queue.stream.binary
      ensures r == Got ==> m != null && message == null && hupIn == old(hupIn) && WholeMessage(old(Unread()), m.nData)
      ensures r == Got ==> m.data[..] == old(Unread())[..m.nData] && Unread() == old(Unread())[m.nData..]
      ensures r == Got ==> queue.stream.mark == old(queue.stream.mark) + m.nData
      ensures r == Got ==> InputQueue.Carried(queue.stream.sets, old(queue.stream.mark), queue.stream.mark, m.fds)
      ensures r == Nothing ==> PartOfMessage(old(Unread())) && Unread() == old(Unread()) && !hupIn && !old(hupIn)
      ensures r == Nothing ==> queue.stream.mark == old(queue.stream.mark)
      ensures r == Nothing ==> message == old(message) || fresh(MessageRepr())
      ensures r == Nothing ==> Waiting() && (message != null <==> |Unread()| >= HEADER_SIZE)
      ensures r == Eof ==> hupIn
      ensures r != QuotaExceeded ==>
        (r == Eof <==> Ends(old(queue.stream.sets), old(queue.stream.mark), old(hupIn), old(Unread())))
    {
      hide Valid;
      hide Unread;
      hide WholeMessage;
      hide PartOfMessage;
      hide Ends;
      hide InputQueue.Carried;
      var ok := EnsureTarget();
      if !ok {
        ValidIsClosable();
        return QuotaExceeded, null;
      }
      if message == null {
        r := FirstHeader();
        if r != Got {
          return r, null;
        }
      }
      r, m := TakeBody();
    }

    // until the header is complete
    method FirstHeader() returns (r: MessageResult)
      requires Valid() && out.Valid() && message == null && queue.pending.data != null
      modifies this`message, this`hupIn, queue, header, out`shutdown, out`hupOut, out`queue
      ensures out.Valid() && queue.data == old(queue.data)
      ensures r == QuotaExceeded ==> Closable()
      ensures r != QuotaExceeded ==> Valid() && SameStream(queue.stream, old(queue.stream)) && queue.stream.binary
      ensures r == Got ==> message != null && fresh(MessageRepr()) && Unread() == old(Unread())
      ensures r == Got ==> queue.stream.mark == old(queue.stream.mark) && hupIn == old(hupIn)
      ensures r == Nothing ==> PartOfMessage(old(Unread())) && Unread() == old(Unread()) && !hupIn && !old(hupIn)
      ensures r == Nothing ==> queue.stream.mark == old(queue.stream.mark) && message == null
      ensures r == Nothing ==> Waiting() && |Unread()| < HEADER_SIZE
      ensures r == Eof ==> hupIn && Ends(queue.stream.sets, old(queue.stream.mark), old(hupIn), old(Unread()))
      ensures r == Nothing ==> !Ends(old(queue.stream.sets), old(queue.stream.mark), old(hupIn), old(Unread()))
    {
      hide Valid;
      hide Unread;
      hide InputQueue.TwoSets;
      hide MessageEnd;
      r := ReadHeader();
      if r == Nothing && hupIn {
        r := Eof;
      }
    }

    // the message whose header is complete
    method TakeBody() returns (r: MessageResult, m: Message.Message?)
      requires Valid() && out.Valid() && message != null
      modifies this`message, this`hupIn, queue, message`fds, message.data, out`shutdown, out`hupOut, out`queue
      ensures Valid() && out.Valid() && SameStream(queue.stream, old(queue.stream)) && queue.stream.binary
      ensures queue.data == old(queue.data) && r != QuotaExceeded
      ensures r == Got ==>
        m == old(message) && message == null && hupIn == old(hupIn) && WholeMessage(old(Unread()), m.nData)
      ensures r == Got ==> m.data[..] == old(Unread())[..m.nData] && Unread() == old(Unread())[m.nData..]
      ensures r == Got ==> queue.stream.mark == old(queue.stream.mark) + m.nData
      ensures r == Got ==> InputQueue.Carried(queue.stream.sets, old(queue.stream.mark), queue.stream.mark, m.fds)
      ensures r == Nothing ==> PartOfMessage(old(Unread())) && Unread() == old(Unread()) && !hupIn && !old(hupIn)
      ensures r == Nothing ==> queue.stream.mark == old(queue.stream.mark)
      ensures r == Nothing ==> Waiting() && message == old(message) && |Unread()| >= HEADER_SIZE
      ensures r == Eof ==> hupIn
      ensures r == Eof <==> Ends(old(queue.stream.sets), old(queue.stream.mark), old(hupIn), old(Unread()))
    {
      UnreadStartsWithHeader();
      OneOfThree(Unread());
      hide Valid;
      hide Unread;
      hide InputQueue.Carried;
      hide InputQueue.TwoSets;
      hide MessageEnd;
      r, m := ReadBody();
      if r == Nothing && hupIn {
        r := Eof;
      }
    }
  }

  // No message comes out of `unread` any more: its first message is crowded with descriptors, its
  // header is bad, or it is not complete after the end of file.
  ghost predicate Ends(sets: map<nat, FdSet>, mark: nat, hup: bool, unread: seq<Byte>) {
    || Crowded(sets, mark, unread)
    || BadHeader(unread)
    || (hup && PartOfMessage(unread))
  }

  lemma HeadAndRest<T>(head: seq<T>, tail: seq<T>, n: nat)
    ensures n <= |tail| ==> (head + tail)[..|head| + n] == head + tail[..n] && (head + tail)[|head| + n..] == tail[n..]
  {
  }

  // what follows the head completes s
  lemma Completed<T>(s: seq<T>, head: seq<T>, tail: seq<T>)
    requires |head| <= |s| <= |head| + |tail|
    requires s[..|head|] == head && s[|head|..|s|] == tail[..|s| - |head|]
    ensures s == (head + tail)[..|s|] && (head + tail)[|s|..] == tail[|s| - |head|..]
  {
    HeadAndRest(head, tail, |s| - |head|);
    assert s == s[..|head|] + s[|head|..|s|];
  }

  lemma OneOfThree(s: seq<Byte>)
    ensures PartOfMessage(s) ==> !BadHeader(s)
    ensures forall n: nat :: WholeMessage(s, n) ==> !BadHeader(s) && !PartOfMessage(s)
  {
  }

  lemma NotBoth(s: seq<Byte>)
    ensures forall n: nat :: InputQueue.LineOf(s, n) ==> !InputQueue.NoLine(s)
  {
  }

  // s starts with a message of n bytes
  predicate WholeMessage(s: seq<Byte>, n: nat) {
    && HEADER_SIZE <= n <= |s| && Message.FrameOf(s[..HEADER_SIZE]).Frame?
    && n == Message.Size(Message.FrameOf(s[..HEADER_SIZE]))
  }

  // s is too short
  predicate PartOfMessage(s: seq<Byte>) {
    |s| >= HEADER_SIZE ==>
      && Message.FrameOf(s[..HEADER_SIZE]).Frame?
      && |s| < Message.Size(Message.FrameOf(s[..HEADER_SIZE]))
  }
}
