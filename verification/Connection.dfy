/**
 The server side of a connection (src/dbus/connection.c): lines are fed to the SASL exchange
 until it is over, then messages are returned. However the stream is cut into reads, what comes
 out is a function of the whole stream.
 */
module Connection {
  import opened Base
  import opened Bytes
  import InputQueue
  import Message
  import Output
  import Sasl
  import Socket
  import opened Tokens

  datatype QueueOutcome = Accepted | OverQuota | FdsRefused

  datatype Result = Got | Nothing | Eof | QuotaExceeded | SaslViolation | UnexpectedFds

  class Connection {
    const socket: Socket.Socket
    const sasl: Sasl.SaslServer
    var authenticated: bool
    ghost var tokens: seq<Token>    // everything that came out so far

    ghost function Now(): Mode
      reads this, sasl
    {
      if authenticated then Messages else Lines(sasl.Now())
    }

    // all but that message mode has begun
    ghost predicate Open()
      reads this, sasl, socket, socket.queue, socket.queue.buffer, socket.queue.data, socket.queue.pending.data
      reads socket.header, socket.MessageRepr(), socket.out, socket.out.queue
    {
      && socket.Valid() && socket.out.Valid()
      && (authenticated <==> sasl.state == Sasl.Done)
      && (socket.queue.stream.binary ==> authenticated)
      && (socket.out.messages ==> authenticated)
    }

    ghost predicate Valid()
      reads this, sasl, socket, socket.queue, socket.queue.buffer, socket.queue.data, socket.queue.pending.data
      reads socket.header, socket.MessageRepr(), socket.out, socket.out.queue
    {
      Open() && (authenticated ==> socket.queue.stream.binary)
    }

    // What came out and what is still unread make up the whole stream.
    ghost predicate Accounted()
      requires Open()
      reads this, sasl, socket, socket.queue, socket.queue.buffer, socket.queue.data, socket.queue.pending.data
      reads socket.header, socket.MessageRepr(), socket.out, socket.out.queue
    {
      && Positioned(socket.Unread())
      && var d := Drain(Now(), sasl.uid, socket.Unread());
      Drain(Lines(Sasl.FRESH), sasl.uid, socket.queue.stream.received) == Drained(tokens + d.tokens, d.mode, d.rest)
    }

    // The unread bytes are what follows the bytes of the tokens.
    ghost predicate Positioned(unread: seq<Byte>)
      reads this, socket, socket.queue
    {
      RestOf(socket.queue.stream.mark, Length(tokens), unread, socket.queue.stream.received)
    }

    // The next line or message cannot come out because of the descriptors that came with it.
    ghost predicate Refused()
      reads this, sasl, socket, socket.queue
    {
      Clash(Now(), socket.queue.stream.sets, Length(tokens), socket.queue.stream.received)
    }

    // connection_init_server()
    constructor (uid: nat, guid: string)
      ensures Valid() && Accounted() && tokens == [] && sasl.uid == uid
    {
      socket := new Socket.Socket();
      sasl := new Sasl.SaslServer(uid, guid);
      authenticated, tokens := false, [];
      new;
      assert [] + Drain(Now(), sasl.uid, []).tokens == Drain(Now(), sasl.uid, []).tokens;
    }

    // connection_dispatch() of input
    method DispatchInput(kernel: Socket.Kernel) returns (r: Socket.ReadResult)
      requires Valid() && Accounted() && (kernel.Chunk? ==> kernel.bytes != [])
      modifies socket`message, socket`hupIn, socket.queue, socket.queue.data, socket.queue.buffer,
        socket.queue.pending.data
      modifies socket.out`shutdown, socket.out`hupOut, socket.out`queue
      ensures Valid() && tokens == old(tokens) && Now() == old(Now())
      ensures r.Read? || r.Idle? || r.HungUp? ==> Accounted()
      ensures r.HungUp? || r.TooLong? || r.Refused? ==> socket.hupIn
      ensures r.HungUp? && !old(socket.hupIn) && kernel.Failure? ==> socket.out.hupOut
      ensures !old(socket.hupIn) && old(socket.queue.cursor) == old(socket.queue.end) && !r.TooLong? && !r.Refused? ==>
        && (kernel.NothingYet? <==> r.Idle?) && (kernel.Chunk? <==> r.Read?)
        && (kernel.EndOfFile? || kernel.Failure? <==> r.HungUp?)
      ensures r.Read? ==> kernel.Chunk? && r.n <= |kernel.bytes|
      ensures r.Read? ==>
        var fds := Socket.Kept(old(socket.DropsFds()), kernel.fds);
        socket.queue.stream == InputQueue.Arrived(old(socket.queue.stream), kernel.bytes[..r.n], fds)
      ensures r.TooLong? ==>
        Drain(Lines(Sasl.FRESH), sasl.uid, old(socket.queue.stream.received)) == Drained(tokens, Failed, [])
    {
      hide Drain;
      hide First;
      hide InputQueue.NoLine;
      hide Socket.Socket.Valid;
      hide Socket.Socket.Unread;
      ghost var uid, mode, unread, received := sasl.uid, Now(), socket.Unread(), socket.queue.stream.received;
      r := socket.DispatchRead(kernel);
      if r.Read? {
        ReadOn(mode, uid, unread, received, tokens, kernel.bytes[..r.n]);
        hide Clash;
        RestMore(socket.queue.stream.mark, Length(tokens), unread, received, kernel.bytes[..r.n]);
      } else if r.TooLong? {
        TooLongFails(mode, uid, unread);
      }
    }

    // all tokens of everything that was read
    ghost function Whole(): Drained
      reads sasl, socket, socket.queue
    {
      Drain(Lines(Sasl.FRESH), sasl.uid, socket.queue.stream.received)
    }

    // connection_feed_sasl(): one line, and its answer
    method FeedSasl(text: seq<Byte>) returns (ok: bool)
      requires !authenticated && sasl.state != Sasl.Done && socket.out.Valid() && !socket.out.messages
      modifies this`authenticated, sasl, socket.out, socket.out.queue`vecs
      ensures var (after, reply) := Sasl.Step(old(sasl.Now()), sasl.uid, text);
        ok == (reply != Sasl.Violation) && sasl.Now() == after
      ensures authenticated == (ok && sasl.state == Sasl.Done)
      ensures forall i :: 0 <= i < |socket.out.queue| ==>
        socket.out.queue[i] in old(socket.out.queue) || fresh(socket.out.queue[i])
      ensures socket.out.Valid() && !socket.out.messages
      ensures var answer := sasl.Output(Sasl.Step(old(sasl.Now()), sasl.uid, text).1);
        || (answer.None? && socket.out.queued == old(socket.out.queued))
        || (answer.Some? && socket.out.queued == old(socket.out.queued) + answer.value + Output.CRLF)
        || (answer.Some? && socket.out.queued == old(socket.out.queued) && (socket.out.shutdown || socket.out.hupOut))
    {
      hide Sasl.Step;
      var reply := sasl.Dispatch(text);
      if reply == Sasl.Violation {
        return false;
      }
      authenticated := sasl.state == Sasl.Done;
      var answer := sasl.Output(reply);
      if answer.Some? {
        SendLine(answer.value);
      }
      return true;
    }

    // output that is shut down swallows the line, and one that does not fit shuts it down
    method SendLine(text: seq<Byte>)
      requires socket.out.Valid() && !socket.out.messages
      modifies socket.out, socket.out.queue`vecs
      ensures socket.out.Valid() && !socket.out.messages
      ensures forall i :: 0 <= i < |socket.out.queue| ==>
        socket.out.queue[i] in old(socket.out.queue) || fresh(socket.out.queue[i])
      ensures || socket.out.queued == old(socket.out.queued) + text + Output.CRLF
              || (socket.out.queued == old(socket.out.queued) && (socket.out.shutdown || socket.out.hupOut))
    {
      hide Output.AllWaiting;
      hide Output.Unsent;
      var queued := socket.out.QueueLine(text);
      if queued == Output.QuotaExceeded {
        socket.out.Shutdown();
      }
    }

    // One line of the exchange, if there is one
    method ReadLine() returns (r: Result)
      requires Valid() && Accounted() && !authenticated
      modifies this`authenticated, this`tokens, sasl, socket`message, socket`hupIn, socket.queue, socket.queue.data
      modifies socket.out, socket.out.queue`vecs
      ensures r == Got ==> Open() && Accounted() && (authenticated || Valid()) && !socket.queue.stream.binary
      ensures r == Got ==> socket.hupIn == old(socket.hupIn)
      ensures r == Got ==> |socket.Unread()| < |old(socket.Unread())| && socket.queue.cursor == socket.queue.start
      ensures r == Got || r == Nothing || r == Eof || r == SaslViolation
      ensures r == Nothing ==> Valid() && Accounted() && !authenticated && tokens == Whole().tokens
      ensures old(Refused()) ==> r == Eof
      ensures r == Eof && !Refused() ==> tokens == Whole().tokens && old(socket.hupIn)
      ensures r == Nothing || r == SaslViolation ==> !Refused()
      ensures r == SaslViolation ==> Whole() == Drained(tokens, Failed, [])
      ensures forall i :: 0 <= i < |socket.out.queue| ==>
        socket.out.queue[i] in old(socket.out.queue) || fresh(socket.out.queue[i])
      ensures old(tokens) <= tokens && socket.queue.data == old(socket.queue.data)
      ensures socket.queue.stream.sets == old(socket.queue.stream.sets)
      ensures socket.queue.stream.received == old(socket.queue.stream.received)
    {
      hide Drain;
      hide Refused;
      hide Accounted;
      hide LineTaken;
      hide Socket.Socket.Valid;
      hide Socket.Socket.Unread;
      var line := NextLine();
      match line
      case NoLine =>
        return Nothing;
      case LineEof =>
        return Eof;
      case Line(text) =>
        r := TakeLine(text);
    }

    // socket_dequeue_line(), in terms of the whole stream
    method NextLine() returns (r: Socket.LineResult)
      requires Valid() && Accounted() && !authenticated
      modifies socket`message, socket`hupIn, socket.queue, socket.queue.data
      modifies socket.out`shutdown, socket.out`hupOut, socket.out`queue
      ensures r.Line? ==> Valid() && LineTaken(r.text) && !Refused() && socket.hupIn == old(socket.hupIn)
      ensures r.Line? ==> |socket.Unread()| < |old(socket.Unread())| && socket.queue.cursor == socket.queue.start
      ensures r.NoLine? ==> Valid() && Accounted() && tokens == Whole().tokens && !Refused()
      ensures old(Refused()) ==> r.LineEof?
      ensures r.LineEof? && !Refused() ==> tokens == Whole().tokens && old(socket.hupIn)
      ensures socket.queue.data == old(socket.queue.data) && SameInput(old(socket.queue.stream))
      ensures socket.out.queue == old(socket.out.queue)
    {
      hide Drain;
      hide Length;
      hide InputQueue.SetOnLine;
      hide InputQueue.NoLine;
      hide InputQueue.LineOf;
      hide Socket.Socket.Valid;
      hide Socket.Socket.Unread;
      ghost var uid, server, unread, received := sasl.uid, sasl.Now(), socket.Unread(), socket.queue.stream.received;
      r := socket.DequeueLine();
      match r
      case NoLine =>
        NothingOut(server, uid, unread, received, tokens);
      case LineEof =>
        if InputQueue.NoLine(unread) {
          NothingOut(server, uid, unread, received, tokens);
        }
      case Line(text) =>
        LineOut(server, uid, unread, received, tokens, text);
        RestLess(Length(tokens), unread, received, |text| + 2);
        LengthMore(tokens, Line(text, Sasl.Step(server, uid, text).1));
    }

    // The account once the line is fed to the exchange
    ghost predicate LineTaken(text: seq<Byte>)
      requires socket.Valid()
      reads this, sasl, socket, socket.queue, socket.queue.buffer, socket.queue.data, socket.queue.pending.data
      reads socket.header, socket.MessageRepr()
    {
      var (after, reply) := Sasl.Step(sasl.Now(), sasl.uid, text);
      if reply == Sasl.Violation then Whole() == Drained(tokens, Failed, [])
      else
        && RestOf(socket.queue.stream.mark, Length(tokens + [Line(text, reply)]), socket.Unread(),
          socket.queue.stream.received)
        && var d := Drain(AfterLine(after), sasl.uid, socket.Unread());
        Whole() == Drained(tokens + [Line(text, reply)] + d.tokens, d.mode, d.rest)
    }

    // what an answer changes is no part of the input
    lemma Apart()
      ensures forall o: object? :: o in InputRepr() ==>
        && o != this && o != sasl && o != socket.out
        && forall i :: 0 <= i < |socket.out.queue| ==> o != socket.out.queue[i]
      ensures InputRepr() == {socket, socket.queue, socket.queue.buffer, socket.queue.data,
                              socket.queue.pending.data, socket.header} + socket.MessageRepr()
    {
    }

    ghost function InputRepr(): set<object?>
      reads socket, socket.queue
    {
      {socket, socket.queue, socket.queue.buffer, socket.queue.data, socket.queue.pending.data, socket.header} +
        socket.MessageRepr()
    }

    method TakeLine(text: seq<Byte>) returns (r: Result)
      requires Open() && !authenticated && LineTaken(text)
      modifies this`authenticated, this`tokens, sasl, socket.out, socket.out.queue`vecs
      ensures r == Got || r == SaslViolation
      ensures forall i :: 0 <= i < |socket.out.queue| ==>
        socket.out.queue[i] in old(socket.out.queue) || fresh(socket.out.queue[i])
      ensures r == Got ==> Open() && Accounted() && socket.Unread() == old(socket.Unread())
      ensures r == SaslViolation ==> Whole() == Drained(tokens, Failed, []) && !authenticated && tokens == old(tokens)
      ensures r == SaslViolation ==> Refused() == old(Refused())
      ensures old(tokens) <= tokens
    {
      hide Drain;
      hide Length;
      hide InputQueue.SetOnLine;
      hide Socket.Crowded;
      hide Sasl.Step;
      hide Socket.Socket.Valid;
      hide Socket.Socket.Unread;
      ghost var (_, reply) := Sasl.Step(sasl.Now(), sasl.uid, text);
      ghost var unread := socket.Unread();
      Apart();
      var ok := FeedSasl(text);
      assert socket.Valid() && socket.Unread() == unread;
      if !ok {
        return SaslViolation;
      }
      tokens := tokens + [Line(text, reply)];
      return Got;
    }

    // the exchange, as far as the lines go
    method Authenticate() returns (r: Result)
      requires Valid() && Accounted() && !authenticated
      modifies this`authenticated, this`tokens, sasl, socket`message, socket`hupIn, socket.queue, socket.queue.data
      modifies socket.out, socket.out.queue`vecs
      ensures r == Got || r == Nothing || r == Eof || r == SaslViolation
      ensures r == Got ==> Open() && Accounted() && authenticated && socket.queue.cursor == socket.queue.start
      ensures r == Got ==> !socket.queue.stream.binary && socket.hupIn == old(socket.hupIn)
      ensures r == Nothing ==> Valid() && Accounted() && !authenticated && tokens == Whole().tokens
      ensures old(Refused()) ==> r == Eof
      ensures r == Eof && !Refused() ==> tokens == Whole().tokens && old(socket.hupIn)
      ensures r == Nothing || r == SaslViolation ==> !Refused()
      ensures r == SaslViolation ==> Whole() == Drained(tokens, Failed, [])
      ensures old(tokens) <= tokens && SameInput(old(socket.queue.stream))
      ensures socket.queue.data == old(socket.queue.data)
    {
      hide Refused;
      hide Accounted;
      hide Drain;
      hide Socket.Socket.Valid;
      hide Socket.Socket.Unread;
      r := Got;
      while !authenticated
        invariant Open() && Accounted() && r == Got
        invariant if authenticated then socket.queue.cursor == socket.queue.start else Valid()
        invariant old(Refused()) ==> Refused() && !authenticated
        invariant socket.hupIn == old(socket.hupIn)
        invariant !socket.queue.stream.binary
        invariant old(tokens) <= tokens && SameInput(old(socket.queue.stream))
        invariant socket.queue.data == old(socket.queue.data)
        invariant forall i :: 0 <= i < |socket.out.queue| ==>
          socket.out.queue[i] in old(socket.out.queue) || fresh(socket.out.queue[i])
        decreases !authenticated, |socket.Unread()|
      {
        r := ReadLine();
        if r != Got {
          return;
        }
      }
    }

    ghost predicate SameInput(before: InputQueue.Stream)
      reads socket, socket.queue
    {
      socket.queue.stream.received == before.received && socket.queue.stream.sets == before.sets
    }

    // The descriptors of the last message are those that came with its bytes.
    ghost predicate CameWith(m: Message.Message)
      reads socket, socket.queue, m
    {
      && m.data.Length <= socket.queue.stream.mark
      && InputQueue.Carried(socket.queue.stream.sets, socket.queue.stream.mark - m.data.Length,
        socket.queue.stream.mark, m.fds)
    }

    // a message, and whether its descriptors are allowed
    method ReadMessage() returns (r: Result, m: Message.Message?)
      requires Open() && Accounted() && authenticated && socket.queue.cursor == socket.queue.start
      modifies this`tokens, socket`message, socket`hupIn, socket.queue, socket.header, socket.MessageRepr()
      modifies socket.out`shutdown, socket.out`hupOut, socket.out`queue
      ensures r == Got || r == UnexpectedFds || r == Nothing || r == Eof || r == QuotaExceeded
      ensures r == Got || r == UnexpectedFds ==>
        Valid() && Accounted() && m != null && tokens == old(tokens) + [Token.Whole(m.data[..])]
      ensures r == Got ==> (m.fds.Some? ==> sasl.fdsAllowed)
      ensures r == UnexpectedFds ==> m.fds.Some? && !sasl.fdsAllowed
      ensures r == Got || r == UnexpectedFds ==> CameWith(m)
      ensures r == Nothing ==> Valid() && Accounted() && tokens == Whole().tokens
      ensures old(Refused()) ==> r == Eof || r == QuotaExceeded
      ensures r == Eof && !Refused() ==> tokens == Whole().tokens && (old(socket.hupIn) || Whole().mode == Failed)
      ensures r == Nothing ==> !Refused()
      ensures old(tokens) <= tokens && (r != QuotaExceeded ==> SameInput(old(socket.queue.stream)))
    {
      hide Refused;
      hide Accounted;
      hide MessageTaken;
      hide Drain;
      hide Socket.Socket.Valid;
      hide Socket.Socket.Unread;
      hide InputQueue.Carried;
      var result;
      result, m := NextMessage();
      match result
      case Nothing =>
        return Nothing, null;
      case Eof =>
        return Eof, null;
      case QuotaExceeded =>
        return QuotaExceeded, null;
      case Got =>
        TakeMessage(m);
        return if m.fds.Some? && !sasl.fdsAllowed then UnexpectedFds else Got, m;
    }

    ghost method TakeMessage(m: Message.Message)
      requires Valid() && MessageTaken(m) && authenticated
      modifies this`tokens
      ensures Valid() && Accounted() && tokens == old(tokens) + [Token.Whole(m.data[..])]
    {
      hide Drain;
      hide Length;
      hide Socket.Socket.Valid;
      hide Socket.Socket.Unread;
      Apart();
      tokens := tokens + [Token.Whole(m.data[..])];
    }

    // the account once the message is returned
    ghost predicate MessageTaken(m: Message.Message)
      requires socket.Valid()
      reads this, sasl, socket, socket.queue, socket.queue.buffer, socket.queue.data, socket.queue.pending.data
      reads socket.header, socket.MessageRepr(), m, m.data
    {
      && RestOf(socket.queue.stream.mark, Length(tokens + [Token.Whole(m.data[..])]), socket.Unread(),
        socket.queue.stream.received)
      && var d := Drain(Messages, sasl.uid, socket.Unread());
      Whole() == Drained(tokens + [Token.Whole(m.data[..])] + d.tokens, d.mode, d.rest)
    }

    // socket_dequeue(), in terms of the whole stream
    method NextMessage() returns (r: Socket.MessageResult, m: Message.Message?)
      requires Open() && Accounted() && authenticated && socket.queue.cursor == socket.queue.start
      modifies socket`message, socket`hupIn, socket.queue, socket.header, socket.MessageRepr()
      modifies socket.out`shutdown, socket.out`hupOut, socket.out`queue
      ensures r == Socket.Got ==> Valid() && m != null && MessageTaken(m) && CameWith(m) && socket.message == null
      ensures r == Socket.Nothing ==> Valid() && Accounted() && tokens == Whole().tokens && !Refused()
      ensures old(Refused()) ==> r == Socket.Eof || r == Socket.QuotaExceeded
      ensures r == Socket.Eof && !Refused() ==>
        tokens == Whole().tokens && (old(socket.hupIn) || Whole().mode == Failed)
      ensures r != Socket.QuotaExceeded ==> SameInput(old(socket.queue.stream))
    {
      hide Drain;
      hide Clash;
      hide Length;
      hide InputQueue.Carried;
      hide Socket.Socket.Valid;
      hide Socket.Socket.Unread;
      hide Socket.WholeMessage;
      hide Socket.PartOfMessage;
      hide Socket.BadHeader;
      hide Socket.Crowded;
      ghost var uid, unread, received := sasl.uid, socket.Unread(), socket.queue.stream.received;
      NoMessageOut(uid, unread, received, tokens);
      CrowdedIsRefused();
      r, m := socket.Dequeue();
      if r == Socket.Got {
        MessageOut(uid, unread, received, tokens, m.nData);
        RestLess(Length(tokens), unread, received, m.nData);
        LengthMore(tokens, Token.Whole(m.data[..]));
      }
    }

    lemma CrowdedIsRefused()
      requires Open() && Accounted() && authenticated
      ensures Refused() <==> Socket.Crowded(socket.queue.stream.sets, socket.queue.stream.mark, socket.Unread())
    {
    }

    // connection_dequeue(): when it returns nothing, exactly the tokens of the stream so far have
    // come out; a message is the next of them
    method Dequeue() returns (r: Result, m: Message.Message?)
      requires Valid() && Accounted()
      modifies this, sasl, socket`message, socket`hupIn, socket.queue, socket.queue.data, socket.header,
        socket.MessageRepr()
      modifies socket.out, socket.out.queue`vecs
      ensures old(tokens) <= tokens
      ensures r == Got || r == UnexpectedFds ==> Valid() && Accounted() && m != null
      ensures r == Got || r == UnexpectedFds ==> tokens != [] && tokens[|tokens| - 1] == Token.Whole(m.data[..])
      ensures r == Got || r == UnexpectedFds ==> CameWith(m)
      ensures r == Got ==> (m.fds.Some? ==> sasl.fdsAllowed)
      ensures r == UnexpectedFds ==> m.fds.Some? && !sasl.fdsAllowed
      ensures r == Nothing ==> Valid() && Accounted() && tokens == Whole().tokens
      ensures old(Refused()) ==> r == Eof || r == QuotaExceeded
      ensures r == Eof && !Refused() ==> tokens == Whole().tokens && (old(socket.hupIn) || Whole().mode == Failed)
      ensures r == Nothing ==> !Refused()
      ensures r == SaslViolation ==> Whole() == Drained(tokens, Failed, []) && !Refused()
      ensures r != QuotaExceeded ==> SameInput(old(socket.queue.stream))
    {
      hide Refused;
      hide Accounted;
      hide Drain;
      hide Socket.Socket.Valid;
      hide Socket.Socket.Unread;
      hide InputQueue.Carried;
      m := null;
      if authenticated {
        CursorAtStart();
      } else {
        r := Authenticate();
        if r != Got {
          return;
        }
        NoMessageYet();
      }
      r, m := ReadMessage();
    }

    // connection_queue(): the bytes of the message go behind everything that was queued before,
    // unless output is shut down; descriptors need the consent of the other side
    method Queue(m: Message.Message) returns (r: QueueOutcome)
      requires socket.out.Valid() && m.Valid() && m.Wire() != []
      modifies socket.out`queue, socket.out`queued, socket.out`messages
      ensures socket.out.Valid() && socket.out.sent == old(socket.out.sent)
      ensures r == FdsRefused <==> m.fds.Some? && !sasl.fdsAllowed
      ensures socket.out.queued == old(socket.out.queued) +
        if r == Accepted && !old(socket.out.hupOut || socket.out.shutdown) then m.Wire() else []
      ensures r == Accepted && !old(socket.out.hupOut || socket.out.shutdown) ==>
        socket.out.queue != [] && socket.out.queue[|socket.out.queue| - 1].fds == m.fds
    {
      hide *;
      if m.fds.Some? && !sasl.fdsAllowed {
        return FdsRefused;
      }
      FlatPieces(m);
      var queued := socket.out.QueueMessage(m.Pieces(), m.fds);
      return if queued == Output.QuotaExceeded then OverQuota else Accepted;
    }

    lemma FlatPieces(m: Message.Message)
      requires m.Valid()
      ensures Output.Flat(m.Pieces()) == m.Wire()
    {
      Output.FlatFour(m.Bytes(m.vecs[0]), m.Bytes(m.vecs[1]), m.Bytes(m.vecs[2]), m.Bytes(m.vecs[3]));
    }

    lemma NoMessageYet()
      requires Open() && !socket.queue.stream.binary
      ensures socket.message == null
    {
    }

    lemma CursorAtStart()
      requires Valid() && authenticated
      ensures socket.queue.cursor == socket.queue.start
    {
    }
  }

  // the bytes that the tokens take up in the stream
  function Length(tokens: seq<Token>): nat {
    if tokens == [] then 0 else Length(tokens[..|tokens| - 1]) + Size(tokens[|tokens| - 1])
  }

  function Size(token: Token): nat {
    match token
    case Line(text, _) => |text| + 2
    case Whole(message) => |message|
  }

  lemma LengthMore(tokens: seq<Token>, token: Token)
    ensures Length(tokens + [token]) == Length(tokens) + Size(token)
  {
    assert (tokens + [token])[..|tokens|] == tokens;
  }

  // A set came with a byte of the next line, or two came with bytes of the next message; it
  // starts at `at` in the stream.
  ghost predicate Clash(mode: Mode, sets: map<nat, FdSet>, at: nat, received: seq<Byte>) {
    && at <= |received|
    && match mode
       case Lines(_) => InputQueue.SetOnLine(sets, at, received[at..])
       case Messages => Socket.Crowded(sets, at, received[at..])
       case Failed => false
  }

  // In terms of the line or message that comes next
  lemma ClashIff(mode: Mode, sets: map<nat, FdSet>, at: nat, received: seq<Byte>, n: nat)
    requires at <= |received|
    ensures mode.Lines? && InputQueue.LineOf(received[at..], n) ==>
      (Clash(mode, sets, at, received) <==> exists p :: p in sets && at <= p < at + n + 2)
    ensures mode.Messages? && at + 16 <= |received| && Message.FrameOf(received[at..][..16]).Frame? ==>
      var end := at + Message.Size(Message.FrameOf(received[at..][..16]));
      Clash(mode, sets, at, received) <==> exists p, q :: p in sets && q in sets && at <= p < q < end
    ensures mode.Failed? ==> !Clash(mode, sets, at, received)
  {
    if mode.Lines? && InputQueue.LineOf(received[at..], n) {
      forall m: nat | InputQueue.LineOf(received[at..], m) ensures m == n {
        LineUnique(received[at..], m, n);
      }
    }
  }

  ghost predicate RestOf(mark: nat, at: nat, unread: seq<Byte>, received: seq<Byte>) {
    mark == at <= |received| && unread == received[at..]
  }

  lemma RestMore(mark: nat, at: nat, unread: seq<Byte>, received: seq<Byte>, chunk: seq<Byte>)
    requires RestOf(mark, at, unread, received)
    ensures RestOf(mark, at, unread + chunk, received + chunk)
  {
  }

  lemma RestLess(at: nat, unread: seq<Byte>, received: seq<Byte>, n: nat)
    requires RestOf(at, at, unread, received) && n <= |unread|
    ensures RestOf(at + n, at + n, unread[n..], received)
  {
  }

  // a message comes out
  lemma MessageOut(uid: nat, unread: seq<Byte>, received: seq<Byte>, tokens: seq<Token>, n: nat)
    requires Socket.WholeMessage(unread, n)
    requires var d := Drain(Messages, uid, unread);
      Drain(Lines(Sasl.FRESH), uid, received) == Drained(tokens + d.tokens, d.mode, d.rest)
    ensures n <= |unread|
    ensures var d := Drain(Messages, uid, unread[n..]);
      Drain(Lines(Sasl.FRESH), uid, received) == Drained(tokens + [Token.Whole(unread[..n])] + d.tokens, d.mode, d.rest)
  {
    DrainMessage(uid, unread, n);
    hide Drain;
    var d := Drain(Messages, uid, unread[n..]);
    ConcatAssociates(tokens, [Token.Whole(unread[..n])], d.tokens);
  }

  // no message is complete, or there will never be one
  lemma NoMessageOut(uid: nat, unread: seq<Byte>, received: seq<Byte>, tokens: seq<Token>)
    requires var d := Drain(Messages, uid, unread);
      Drain(Lines(Sasl.FRESH), uid, received) == Drained(tokens + d.tokens, d.mode, d.rest)
    ensures Socket.PartOfMessage(unread) || Socket.BadHeader(unread) ==>
      Drain(Lines(Sasl.FRESH), uid, received).tokens == tokens
    ensures Socket.BadHeader(unread) ==> Drain(Lines(Sasl.FRESH), uid, received).mode == Failed
  {
    DrainFirst(Messages, uid, unread);
  }

  // no line is complete
  lemma NothingOut(server: Sasl.Server, uid: nat, unread: seq<Byte>, received: seq<Byte>, tokens: seq<Token>)
    requires InputQueue.NoLine(unread)
    requires var d := Drain(Lines(server), uid, unread);
      Drain(Lines(Sasl.FRESH), uid, received) == Drained(tokens + d.tokens, d.mode, d.rest)
    ensures Drain(Lines(Sasl.FRESH), uid, received).tokens == tokens
  {
    forall n: nat ensures !ShortLine(unread, n) {
      assert n + 1 < |unread| ==> !InputQueue.EndsLine(unread, n + 1);
    }
  }

  // a line comes out
  lemma LineOut(server: Sasl.Server, uid: nat, unread: seq<Byte>, received: seq<Byte>, tokens: seq<Token>,
    text: seq<Byte>)
    requires InputQueue.LineOf(unread, |text|) && text == unread[..|text|] && |unread| <= LINE_MAX
    requires var d := Drain(Lines(server), uid, unread);
      Drain(Lines(Sasl.FRESH), uid, received) == Drained(tokens + d.tokens, d.mode, d.rest)
    ensures |text| + 2 <= |unread|
    ensures var (after, reply) := Sasl.Step(server, uid, text);
      if reply == Sasl.Violation then Drain(Lines(Sasl.FRESH), uid, received) == Drained(tokens, Failed, [])
      else
        var d := Drain(AfterLine(after), uid, unread[|text| + 2..]);
        Drain(Lines(Sasl.FRESH), uid, received) == Drained(tokens + [Line(text, reply)] + d.tokens, d.mode, d.rest)
  {
    DrainLine(server, uid, unread, |text|);
    hide Drain;
    hide Sasl.Step;
    hide InputQueue.LineOf;
    var (after, reply) := Sasl.Step(server, uid, text);
    var d := Drain(AfterLine(after), uid, unread[|text| + 2..]);
    ConcatAssociates(tokens, [Line(text, reply)], d.tokens);
  }

  // the account after a chunk
  lemma ReadOn(mode: Mode, uid: nat, unread: seq<Byte>, received: seq<Byte>, tokens: seq<Token>, chunk: seq<Byte>)
    requires var d := Drain(mode, uid, unread);
      Drain(Lines(Sasl.FRESH), uid, received) == Drained(tokens + d.tokens, d.mode, d.rest)
    ensures var d := Drain(mode, uid, unread + chunk);
      Drain(Lines(Sasl.FRESH), uid, received + chunk) == Drained(tokens + d.tokens, d.mode, d.rest)
  {
    DrainInSteps(mode, uid, unread, chunk);
    DrainInSteps(Lines(Sasl.FRESH), uid, received, chunk);
    var d := Drain(mode, uid, unread);
    var e := Drain(d.mode, uid, d.rest + chunk);
    ConcatAssociates(tokens, d.tokens, e.tokens);
  }

  lemma TooLongFails(mode: Mode, uid: nat, unread: seq<Byte>)
    requires mode.Lines? && InputQueue.NoLine(unread) && |unread| >= LINE_MAX
    ensures Drain(mode, uid, unread) == Drained([], Failed, [])
  {
    forall n: nat ensures !ShortLine(unread, n) {
      assert n + 1 < |unread| ==> !InputQueue.EndsLine(unread, n + 1);
    }
  }
}
