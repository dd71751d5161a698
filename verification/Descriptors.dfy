/**
 A message whose chunks bring several sets of file descriptors is read through a socket, header
 first (src/dbus/socket.c). It is refused exactly if module Cuts says so of the way it was cut.
 */
module Descriptors {
  import opened Base
  import opened Bytes
  import opened Cuts
  import InputQueue
  import Message
  import Socket

  // the first bytes of a message of n bytes
  predicate StartOf(bytes: seq<Byte>, n: nat) {
    && |bytes| <= n && n >= HEADER_SIZE
    && (|bytes| >= HEADER_SIZE ==> Message.FrameOf(bytes[..HEADER_SIZE]).Frame? && Socket.MessageEnd(bytes) == n)
  }

  lemma StartsWithStart(bytes: seq<Byte>, more: seq<Byte>, n: nat)
    requires StartOf(bytes + more, n)
    ensures StartOf(bytes, n)
  {
    assert |bytes| >= HEADER_SIZE ==> (bytes + more)[..HEADER_SIZE] == bytes[..HEADER_SIZE];
  }

  // The only set that was accepted so far, if any, came with one of the first n bytes.
  ghost predicate OneSet(sets: map<nat, FdSet>, first: Option<FdSet>, n: nat) {
    match first
    case None => sets == map[]
    case Some(x) => exists p: nat :: p < n && sets == map[p := x]
  }

  lemma NextSet(sets: map<nat, FdSet>, first: Option<FdSet>, n: nat, m: nat, fds: Option<FdSet>, dropped: bool,
    end: nat)
    requires OneSet(sets, first, n) && n < m <= end && (dropped ==> first.Some?)
    ensures var kept := Socket.Kept(dropped, fds); var sets' := if kept.Some? then sets[m - 1 := kept.value] else sets;
      && (InputQueue.TwoSets(sets', 0, end) <==> fds.Some? && first.Some? && !dropped)
      && (!InputQueue.TwoSets(sets', 0, end) ==> OneSet(sets', if first.Some? then first else fds, m))
  {
    var kept := Socket.Kept(dropped, fds);
    if first.Some? {
      var p: nat :| p < n && sets == map[p := first.value];
      if kept.Some? {
        var sets' := sets[m - 1 := kept.value];
        assert p in sets' && m - 1 in sets' && p < m - 1;
      } else {
        assert p < m && sets == map[p := first.value];
      }
    } else if kept.Some? {
      assert sets[m - 1 := kept.value] == map[m - 1 := kept.value];
    }
  }

  lemma OnlySet(sets: map<nat, FdSet>, first: Option<FdSet>, n: nat, f: Option<FdSet>)
    requires OneSet(sets, first, n) && InputQueue.Carried(sets, 0, n, f)
    ensures f == first
  {
    if first.Some? {
      var p: nat :| p < n && sets == map[p := first.value];
      assert p in sets;
    }
  }

  ghost function Footprint(socket: Socket.Socket): set<object>
    reads socket, socket.queue
  {
    {socket, socket.queue, socket.queue.buffer, socket.queue.data, socket.header, socket.out} + socket.MessageRepr()
  }

  lemma TargetInFootprint(socket: Socket.Socket)
    requires socket.Valid()
    ensures socket.queue.pending.data == null || socket.queue.pending.data in Footprint(socket)
  {
  }

  // between two reads: the bytes so far are unread, and the first set waits
  ghost predicate Reading(socket: Socket.Socket, cut: Cut)
    reads socket, socket.queue, socket.queue.buffer, socket.queue.data, socket.queue.pending.data
    reads socket.header, socket.MessageRepr(), socket.out, socket.out.queue
  {
    && socket.Valid() && socket.out.Valid() && socket.Waiting() && !socket.hupIn
    && socket.queue.stream.binary && socket.queue.stream.mark == 0
    && socket.Unread() == Joined(cut) == socket.queue.stream.received
    && (socket.message != null <==> |Joined(cut)| >= HEADER_SIZE)
    && OneSet(socket.queue.stream.sets, FirstSet(cut), |Joined(cut)|)
  }

  // what is known of the socket when a chunk is read next
  lemma BeforeChunk(socket: Socket.Socket, cut: Cut, n: nat)
    requires Reading(socket, cut) && StartOf(Joined(cut), n)
    ensures socket.DropsFds() <==> FirstSet(cut).Some? && !Buffered(|Joined(cut)|, n)
    ensures socket.Room() == if Buffered(|Joined(cut)|, n) then RECV_MAX else n - |Joined(cut)|
  {
    if socket.message != null {
      socket.UnreadStartsWithHeader();
      assert socket.message.nData == n;
    }
    var sets := socket.queue.stream.sets;
    if FirstSet(cut).Some? {
      var p: nat :| p < |Joined(cut)| && sets == map[p := FirstSet(cut).value];
      assert p in sets;
    }
  }

  // a chunk was read, and nothing is parsed yet
  ghost predicate Loaded(socket: Socket.Socket, bytes: seq<Byte>, first: Option<FdSet>, refused: bool)
    reads socket, socket.queue, socket.queue.buffer, socket.queue.data, socket.queue.pending.data
    reads socket.header, socket.MessageRepr(), socket.out, socket.out.queue
  {
    && socket.Valid() && socket.out.Valid() && !socket.hupIn
    && socket.queue.stream.binary && socket.queue.stream.mark == 0 && socket.queue.cursor == socket.queue.start
    && socket.Unread() == bytes == socket.queue.stream.received
    && (Socket.Crowded(socket.queue.stream.sets, 0, bytes) <==> refused)
    && (!refused ==> OneSet(socket.queue.stream.sets, first, |bytes|))
  }

  method Load(socket: Socket.Socket, ghost cut: Cut, ghost n: nat, chunk: Chunk)
    requires Reading(socket, cut) && chunk.bytes != [] && StartOf(Joined(cut) + chunk.bytes, n)
    requires Buffered(|Joined(cut)|, n) ==> |chunk.bytes| <= RECV_MAX
    modifies Footprint(socket)
    ensures fresh(Footprint(socket) - old(Footprint(socket)))
    ensures Loaded(socket, Joined(cut) + chunk.bytes, if FirstSet(cut).Some? then FirstSet(cut) else chunk.fds,
                   chunk.fds.Some? && FirstSet(cut).Some? && Buffered(|Joined(cut)|, n))
  {
    hide Socket.Socket.Valid;
    hide Socket.Socket.Unread;
    hide Socket.Socket.DropsFds;
    hide Socket.Socket.Room;
    hide InputQueue.TwoSets;
    hide OneSet;
    hide Joined;
    hide FirstSet;
    StartsWithStart(Joined(cut), chunk.bytes, n);
    BeforeChunk(socket, cut, n);
    TargetInFootprint(socket);
    ghost var sets, before, after := socket.queue.stream.sets, Joined(cut), Joined(cut) + chunk.bytes;
    NextSet(sets, FirstSet(cut), |before|, |after|, chunk.fds, socket.DropsFds(), Socket.MessageEnd(after));
    hide Buffered;
    socket.ReadChunk(chunk.bytes, chunk.fds);
  }

  // a chunk is read, and the message is taken out if it is complete
  method ReadOne(socket: Socket.Socket, ghost cut: Cut, ghost n: nat, chunk: Chunk)
    returns (r: Socket.MessageResult, m: Message.Message?)
    requires Reading(socket, cut) && chunk.bytes != [] && StartOf(Joined(cut) + chunk.bytes, n)
    requires Buffered(|Joined(cut)|, n) ==> |chunk.bytes| <= RECV_MAX
    modifies Footprint(socket)
    ensures r == Socket.Nothing ==> fresh(Footprint(socket) - old(Footprint(socket)))
    ensures r != Socket.QuotaExceeded ==>
      (r == Socket.Eof <==> chunk.fds.Some? && FirstSet(cut).Some? && Buffered(|Joined(cut)|, n))
    ensures r == Socket.Nothing ==> Reading(socket, cut + [chunk]) && |Joined(cut + [chunk])| < n
    ensures r == Socket.Got ==> Delivered(m, cut + [chunk], n) && |Joined(cut + [chunk])| == n
  {
    JoinedMore(cut, chunk);
    hide Reading;
    hide Loaded;
    hide Joined;
    hide FirstSet;
    Load(socket, cut, n, chunk);
    ghost var refused := chunk.fds.Some? && FirstSet(cut).Some? && Buffered(|Joined(cut)|, n);
    r, m := TakeOut(socket, cut + [chunk], n, refused);
  }

  method TakeOut(socket: Socket.Socket, ghost cut: Cut, ghost n: nat, ghost refused: bool)
    returns (r: Socket.MessageResult, m: Message.Message?)
    requires Loaded(socket, Joined(cut), FirstSet(cut), refused) && StartOf(Joined(cut), n)
    modifies Footprint(socket)
    ensures r == Socket.Nothing ==> fresh(Footprint(socket) - old(Footprint(socket)))
    ensures r != Socket.QuotaExceeded ==> (r == Socket.Eof <==> refused)
    ensures r == Socket.Nothing ==> Reading(socket, cut) && |Joined(cut)| < n
    ensures r == Socket.Got ==> Delivered(m, cut, n)
  {
    ghost var bytes, sets := Joined(cut), socket.queue.stream.sets;
    StartEnds(bytes, n);
    hide Joined;
    hide FirstSet;
    hide OneSet;
    hide InputQueue.Carried;
    hide Socket.Socket.Valid;
    hide Socket.Socket.Unread;
    hide Socket.Crowded;
    hide Socket.BadHeader;
    hide Socket.WholeMessage;
    hide Socket.PartOfMessage;
    hide StartOf;
    r, m := socket.Dequeue();
    if r == Socket.Got {
      assert bytes[..m.nData] == bytes;
      OnlySet(sets, FirstSet(cut), n, m.fds);
    }
  }

  // a socket that has begun to read messages
  method Start() returns (socket: Socket.Socket, ok: bool)
    ensures ok ==> Reading(socket, []) && forall o :: o in Footprint(socket) ==> fresh(o)
  {
    NothingYet();
    hide Socket.Socket.Valid;
    hide Socket.Socket.Unread;
    hide Socket.Socket.Closable;
    hide Socket.Crowded;
    hide Socket.BadHeader;
    hide Socket.WholeMessage;
    hide Socket.PartOfMessage;
    hide InputQueue.Carried;
    hide Joined;
    hide FirstSet;
    socket := new Socket.Socket();
    var r, m := socket.Dequeue();
    ok := r == Socket.Nothing;
  }

  lemma NothingYet()
    ensures Joined([]) == [] && FirstSet([]).None? && OneSet(map[], None, 0)
    ensures !Socket.Crowded(map[], 0, []) && !Socket.BadHeader([]) && forall k: nat :: !Socket.WholeMessage([], k)
  {
  }

  // what was done of the message with these chunks
  ghost predicate SoFar(socket: Socket.Socket, r: Socket.MessageResult, m: Message.Message?, cut: Cut, n: nat)
    reads socket, socket.queue, socket.queue.buffer, socket.queue.data, socket.queue.pending.data
    reads socket.header, socket.MessageRepr(), socket.out, socket.out.queue
    reads if m == null then {} else {m, m.data}
  {
    && (r == Socket.Eof <==> Refused(cut, n))
    && (r == Socket.Nothing ==> Reading(socket, cut) && |Joined(cut)| < n)
    && (r == Socket.Got ==> Delivered(m, cut, n))
  }

  lemma NothingSoFar(socket: Socket.Socket, m: Message.Message?, n: nat)
    requires Reading(socket, []) && n > 0
    ensures SoFar(socket, Socket.Nothing, m, [], n)
  {
    assert !Refused([], n);
  }

  lemma AllSoFar(socket: Socket.Socket, r: Socket.MessageResult, m: Message.Message?, cut: Cut, i: nat, n: nat)
    requires i <= |cut| && NoneEmpty(cut) && |Joined(cut)| <= n
    requires SoFar(socket, r, m, cut[..i], n) && (r == Socket.Nothing ==> i == |cut|)
    requires r != Socket.QuotaExceeded
    ensures r == Socket.Eof <==> Refused(cut, n)
    ensures r != Socket.Eof ==> (r == Socket.Got <==> |Joined(cut)| == n)
    ensures r == Socket.Got ==> Delivered(m, cut, n)
  {
    AtEnd(cut, i, n);
  }

  // chunk i is read
  method Step(socket: Socket.Socket, cut: Cut, i: nat, ghost n: nat, ghost last: Message.Message?)
    returns (r: Socket.MessageResult, m: Message.Message?)
    requires i < |cut| && Readable(cut, n) && StartOf(Joined(cut), n)
    requires SoFar(socket, Socket.Nothing, last, cut[..i], n)
    modifies Footprint(socket)
    ensures r == Socket.Nothing ==> forall o :: o in Footprint(socket) ==> o in old(Footprint(socket)) || fresh(o)
    ensures r != Socket.QuotaExceeded ==> SoFar(socket, r, m, cut[..i + 1], n)
  {
    CutOff(cut, i, n);
    hide Reading;
    hide Delivered;
    hide Refused;
    hide Joined;
    hide FirstSet;
    hide Readable;
    hide StartOf;
    hide Footprint;
    r, m := ReadOne(socket, cut[..i], n, cut[i]);
  }

  // the message consists of these chunks, and came with the first set
  ghost predicate Delivered(m: Message.Message?, cut: Cut, n: nat)
    reads if m == null then {} else {m, m.data}
  {
    m != null && |Joined(cut)| == n && m.data[..] == Joined(cut) && m.fds == FirstSet(cut)
  }

  // all of the chunks, as far as they are wanted
  method FeedAll(socket: Socket.Socket, cut: Cut, ghost n: nat)
    returns (i: nat, r: Socket.MessageResult, m: Message.Message?)
    requires Readable(cut, n) && StartOf(Joined(cut), n)
    requires SoFar(socket, Socket.Nothing, null, [], n)
    modifies Footprint(socket)
    ensures r != Socket.QuotaExceeded ==>
      i <= |cut| && SoFar(socket, r, m, cut[..i], n) && (r == Socket.Nothing ==> i == |cut|)
  {
    hide *;
    i, r, m := 0, Socket.Nothing, null;
    assert cut[..0] == [];
    while i < |cut| && r == Socket.Nothing
      invariant i <= |cut|
      invariant r == Socket.Nothing ==> forall o :: o in Footprint(socket) ==> o in old(Footprint(socket)) || fresh(o)
      invariant r != Socket.QuotaExceeded ==> SoFar(socket, r, m, cut[..i], n)
    {
      r, m := Step(socket, cut, i, n, m);
      i := i + 1;
    }
  }

  // A message of n bytes, or the first part of it, is read in these chunks: the connection ends
  // exactly if a further set goes through the buffer. Otherwise a complete message comes out, with
  // its first set.
  method Feed(cut: Cut, ghost n: nat) returns (ok: bool, r: Socket.MessageResult, m: Message.Message?)
    requires Readable(cut, n) && StartOf(Joined(cut), n)
    ensures ok ==> (r == Socket.Eof <==> Refused(cut, n))
    ensures ok && r != Socket.Eof ==> (r == Socket.Got <==> |Joined(cut)| == n)
    ensures ok && r == Socket.Got ==> Delivered(m, cut, n)
  {
    assert n > 0 && |Joined(cut)| <= n && NoneEmpty(cut);
    hide *;
    var socket, i;
    socket, ok := Start();
    r, m := Socket.Nothing, null;
    if ok {
      NothingSoFar(socket, m, n);
      i, r, m := FeedAll(socket, cut, n);
      ok := r != Socket.QuotaExceeded;
    }
    if ok {
      AllSoFar(socket, r, m, cut, i, n);
    }
  }

  lemma CutOff(cut: Cut, i: nat, n: nat)
    requires i < |cut| && Readable(cut, n) && StartOf(Joined(cut), n)
    ensures var front, chunk := cut[..i], cut[i];
      && chunk.bytes != [] && StartOf(Joined(front) + chunk.bytes, n)
      && (Buffered(|Joined(front)|, n) ==> |chunk.bytes| <= RECV_MAX)
    ensures cut[..i + 1] == cut[..i] + [cut[i]]
    ensures Refused(cut[..i + 1], n) <==>
      Refused(cut[..i], n) || (cut[i].fds.Some? && FirstSet(cut[..i]).Some? && Buffered(|Joined(cut[..i])|, n))
  {
    assert cut[..i + 1] == cut[..i] + [cut[i]];
    assert NoneEmpty(cut) && (Buffered(|Joined(cut[..i])|, n) ==> |cut[i].bytes| <= RECV_MAX);
    hide *;
    JoinedMore(cut[..i], cut[i]);
    RefusedMore(cut[..i], cut[i], n);
    JoinedPrefix(cut, i + 1);
    StartOfPrefix(Joined(cut[..i + 1]), Joined(cut), n);
  }

  lemma StartOfPrefix(bytes: seq<Byte>, all: seq<Byte>, n: nat)
    requires bytes <= all && StartOf(all, n)
    ensures StartOf(bytes, n)
  {
    assert all == bytes + all[|bytes|..];
    StartsWithStart(bytes, all[|bytes|..], n);
  }

  lemma AtEnd(cut: Cut, i: nat, n: nat)
    requires i <= |cut| && NoneEmpty(cut) && |Joined(cut)| <= n
    ensures Refused(cut[..i], n) ==> Refused(cut, n)
    ensures |Joined(cut[..i])| == n ==> i == |cut|
    ensures cut[..|cut|] == cut
  {
    JoinedAt(cut, i);
    if j: nat :| RefusedAt(cut[..i], n, j) {
      assert cut[..i][..j] == cut[..j];
      assert RefusedAt(cut, n, j);
    }
  }

  lemma {:induction false} JoinedPrefix(cut: Cut, i: nat)
    requires i <= |cut|
    ensures Joined(cut[..i]) <= Joined(cut)
    decreases |cut| - i
  {
    if i < |cut| {
      assert cut[..i + 1] == cut[..i] + [cut[i]];
      JoinedMore(cut[..i], cut[i]);
      JoinedPrefix(cut, i + 1);
    } else {
      assert cut[..i] == cut;
    }
  }

  // how much of the message is there
  lemma StartEnds(bytes: seq<Byte>, n: nat)
    requires StartOf(bytes, n)
    ensures !Socket.BadHeader(bytes)
    ensures forall k: nat :: Socket.WholeMessage(bytes, k) ==> k == n == |bytes|
    ensures Socket.PartOfMessage(bytes) ==> |bytes| < n
  {
  }
}
