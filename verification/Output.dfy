/**
 The output half of a socket (src/dbus/socket.c): buffers of lines and messages wait in a list
 and are sent piece by piece. Ghost fields remember all bytes that were queued and sent.
 */
module Output {
  import opened Base
  import opened Bytes

  const LINE_PREALLOC := 64
  const MMSG_MAX := 16
  const CRLF: seq<Byte> := ['\r', '\n']

  // An iovec of a buffer: how far it has moved on in its memory, and the bytes it covers now
  datatype Window = Window(base: nat, bytes: seq<Byte>)

  // the bytes that the vectors from i on cover
  function Covered(vecs: seq<Window>, i: nat): seq<Byte>
    requires i <= |vecs|
    decreases |vecs| - i
  {
    if i == |vecs| then [] else vecs[i].bytes + Covered(vecs, i + 1)
  }

  lemma {:induction false} CoveredFrame(vecs: seq<Window>, vecs': seq<Window>, i: nat)
    requires |vecs| == |vecs'| && i <= |vecs| && vecs[i..] == vecs'[i..]
    ensures Covered(vecs, i) == Covered(vecs', i)
    decreases |vecs| - i
  {
    if i < |vecs| {
      assert vecs[i] == vecs[i..][0] && vecs[i + 1..] == vecs[i..][1..] && vecs'[i + 1..] == vecs'[i..][1..];
      CoveredFrame(vecs, vecs', i + 1);
    }
  }

  // vectors that the writer has passed are empty
  predicate Passed(vecs: seq<Window>, w: nat) {
    w <= |vecs| && forall j :: 0 <= j < w ==> vecs[j].bytes == []
  }

  lemma {:induction false} PassedCoversNothing(vecs: seq<Window>, w: nat)
    requires Passed(vecs, w)
    ensures Covered(vecs, 0) == Covered(vecs, w)
    decreases w
  {
    if w > 0 {
      PassedCoversNothing(vecs, w - 1);
    }
  }

  // t bytes leave the vector at w
  function Shortened(vecs: seq<Window>, w: nat, t: nat): seq<Window>
    requires w < |vecs| && t <= |vecs[w].bytes|
  {
    vecs[w := Window(vecs[w].base + t, vecs[w].bytes[t..])]
  }

  lemma ShortenedCovers(vecs: seq<Window>, w: nat, left: nat)
    requires w < |vecs| && left <= |Covered(vecs, w)|
    ensures var t := Min(|vecs[w].bytes|, left); var vecs' := Shortened(vecs, w, t);
      && left - t <= |Covered(vecs', w)|
      && Covered(vecs', w)[left - t..] == Covered(vecs, w)[left..]
      && (vecs'[w].bytes == [] ==> Covered(vecs', w + 1) == Covered(vecs', w))
      && (vecs'[w].bytes != [] ==> left == t && Covered(vecs', w) != [])
  {
    var t := Min(|vecs[w].bytes|, left);
    var vecs' := Shortened(vecs, w, t);
    assert vecs'[w + 1..] == vecs[w + 1..];
    CoveredFrame(vecs, vecs', w + 1);
    CutFront(vecs[w].bytes, Covered(vecs, w + 1), t, left);
  }

  lemma CutFront<T>(piece: seq<T>, rest: seq<T>, t: nat, left: nat)
    requires t <= |piece| && t <= left <= |piece| + |rest|
    ensures (piece[t..] + rest)[left - t..] == (piece + rest)[left..]
    ensures t == |piece| ==> piece[t..] + rest == rest
  {
  }

  // struct SocketBuffer
  class SocketBuffer {
    const isMessage: bool
    const fds: Option<FdSet>
    const nTotal: nat              // the memory of a line buffer
    var writer: Option<nat>
    var vecs: seq<Window>

    ghost predicate Valid()
      reads this
    {
      && (writer.Some? ==> Passed(vecs, writer.value))
      && (!isMessage ==> fds.None? && |vecs| == 1 && vecs[0].base + |vecs[0].bytes| <= nTotal)
    }

    // the bytes that were not sent yet
    ghost function Remaining(): seq<Byte>
      reads this
    {
      Covered(vecs, 0)
    }

    // socket_buffer_new_line()
    constructor Line(n: nat)
      ensures Valid() && !isMessage && writer.None? && fds.None?
      ensures Remaining() == [] && Space() >= n
    {
      isMessage, fds, nTotal, writer := false, None, if n > LINE_PREALLOC then n else LINE_PREALLOC, None;
      vecs := [Window(0, [])];
    }

    // socket_buffer_new_message()
    constructor Message(pieces: seq<seq<Byte>>, fds: Option<FdSet>)
      ensures Valid() && isMessage && this.fds == fds && writer.None?
      ensures Remaining() == Flat(pieces)
    {
      isMessage, this.fds, nTotal, writer := true, fds, 0, None;
      vecs := seq(|pieces|, i requires 0 <= i < |pieces| => Window(0, pieces[i]));
      new;
      CoveredAll(pieces, vecs, 0);
      assert pieces[0..] == pieces;
    }

    // socket_buffer_get_line_space()
    function Space(): nat
      requires Valid() && !isMessage
      reads this
    {
      nTotal - vecs[0].base - |vecs[0].bytes|
    }

    // a line and its end go behind what is there
    method Append(text: seq<Byte>)
      requires Valid() && !isMessage && |text| + 2 <= Space()
      requires Remaining() != [] || writer.None?
      modifies this`vecs
      ensures Valid() && Remaining() == old(Remaining()) + text + CRLF
    {
      assert Covered(vecs, 1) == [];
      var bytes := vecs[0].bytes + text;
      bytes := bytes + CRLF;
      assert vecs[0].base + |bytes| <= nTotal;
      vecs := vecs[0 := vecs[0].(bytes := bytes)];
      assert Covered(vecs, 1) == [];
    }

    // socket_buffer_consume(): n bytes were sent
    method Consume(n: nat) returns (consumed: bool)
      requires Valid() && n <= |Remaining()|
      modifies this`writer, this`vecs
      ensures Valid() && Remaining() == old(Remaining())[n..] && writer.Some?
      ensures consumed <==> Remaining() == []
    {
      if writer.None? {
        writer := Some(0);
      }
      var left: nat := n;
      ghost var all := Remaining();
      PassedCoversNothing(vecs, writer.value);
      hide Covered;
      while writer.value < |vecs|
        invariant Valid() && writer.Some?
        invariant left <= |Covered(vecs, writer.value)| && Covered(vecs, writer.value)[left..] == all[n..]
        decreases |vecs| - writer.value
      {
        var w := writer.value;
        var t := Min(|vecs[w].bytes|, left);
        ShortenedCovers(vecs, w, left);
        vecs := Shortened(vecs, w, t);
        left := left - t;
        if vecs[w].bytes != [] {
          PassedCoversNothing(vecs, w);
          return false;
        }
        writer := Some(w + 1);
      }
      NothingCovered(vecs);
      assert left == 0;
      PassedCoversNothing(vecs, |vecs|);
      return true;
    }
  }

  lemma NothingCovered(vecs: seq<Window>)
    ensures Covered(vecs, |vecs|) == []
  {
  }

  function Flat(pieces: seq<seq<Byte>>): seq<Byte> {
    if pieces == [] then [] else pieces[0] + Flat(pieces[1..])
  }

  lemma FlatFour(a: seq<Byte>, b: seq<Byte>, c: seq<Byte>, d: seq<Byte>)
    ensures Flat([a, b, c, d]) == a + b + c + d
  {
    assert [a, b, c, d] == [a] + [b, c, d] && [b, c, d] == [b] + [c, d] && [c, d] == [c] + [d] && [d] == [d] + [];
    FlatFirst(a, [b, c, d]);
    FlatFirst(b, [c, d]);
    FlatFirst(c, [d]);
    FlatFirst(d, []);
    assert a + (b + (c + d)) == a + b + c + d;
  }

  lemma FlatFirst(piece: seq<Byte>, rest: seq<seq<Byte>>)
    ensures Flat([piece] + rest) == piece + Flat(rest)
  {
    assert ([piece] + rest)[1..] == rest;
  }

  lemma {:induction false} CoveredAll(pieces: seq<seq<Byte>>, vecs: seq<Window>, i: nat)
    requires |pieces| == |vecs| && i <= |pieces|
    requires forall j :: 0 <= j < |vecs| ==> vecs[j] == Window(0, pieces[j])
    ensures Covered(vecs, i) == Flat(pieces[i..])
    decreases |pieces| - i
  {
    if i < |pieces| {
      CoveredAll(pieces, vecs, i + 1);
      assert pieces[i..][1..] == pieces[i + 1..];
    }
  }

  // ---------------------------------------------------------------- the list of buffers

  // all bytes that wait
  ghost function Unsent(q: seq<SocketBuffer>): seq<Byte>
    reads q
  {
    if q == [] then [] else q[0].Remaining() + Unsent(q[1..])
  }

  lemma {:induction false} UnsentConcat(p: seq<SocketBuffer>, q: seq<SocketBuffer>)
    ensures Unsent(p + q) == Unsent(p) + Unsent(q)
  {
    if p == [] {
      assert p + q == q;
    } else {
      assert (p + q)[1..] == p[1..] + q;
      UnsentConcat(p[1..], q);
    }
  }

  lemma UnsentOne(b: SocketBuffer)
    ensures Unsent([b]) == b.Remaining()
  {
    assert [b][1..] == [];
  }

  ghost predicate AllWaiting(q: seq<SocketBuffer>, messages: bool)
    reads q
  {
    && (forall i, j :: 0 <= i < j < |q| ==> q[i] != q[j])
    && (forall b :: b in q ==> b.Valid() && b.Remaining() != [] && (b.isMessage ==> messages))
  }

  lemma StillWaiting(q: seq<SocketBuffer>, messages: bool)
    requires AllWaiting(q, messages)
    ensures AllWaiting(q, true)
  {
  }

  datatype QueueResult = Queued | QuotaExceeded | IsShutdown

  datatype WriteResult = Ready | LostInterest

  // what sendmmsg() says
  datatype Sending =
    | Again
    | HungUp
    | Sent(lens: seq<nat>)      // bytes taken of each message of the batch

  class Output {
    var queue: seq<SocketBuffer>
    var pending: seq<SocketBuffer>   // sent, but their descriptors may still be in the kernel
    var shutdown: bool
    var hupOut: bool
    ghost var queued: seq<Byte>
    ghost var sent: seq<Byte>
    ghost var messages: bool         // a message was queued; no lines after that

    ghost predicate Valid()
      reads this, queue
    {
      && AllWaiting(queue, messages)
      && (if hupOut then queue == [] && sent <= queued else queued == sent + Unsent(queue))
      && (shutdown && queue == [] ==> hupOut)
      && |pending| <= 1
    }

    constructor ()
      ensures Valid() && queue == [] && queued == [] && !shutdown && !hupOut && !messages
    {
      queue, pending, shutdown, hupOut := [], [], false, false;
      queued, sent, messages := [], [], false;
    }

    // socket_queue_line()
    method QueueLine(text: seq<Byte>) returns (r: QueueResult)
      requires Valid() && !messages
      modifies this`queue, this`queued, queue`vecs
      ensures Valid() && sent == old(sent)
      ensures r == IsShutdown <==> old(hupOut || shutdown)
      ensures queued == if r == Queued then old(queued) + text + CRLF else old(queued)
      ensures forall i :: 0 <= i < |queue| ==> queue[i] in old(queue) || fresh(queue[i])
      ensures r != Queued ==> queue == old(queue)
    {
      if hupOut || shutdown {
        return IsShutdown;
      }
      hide Unsent;
      hide Covered;
      ghost var waiting := Unsent(queue);
      if queue == [] || |text| + 2 > queue[|queue| - 1].Space() {
        var quota: bool := *;
        if !quota {
          return QuotaExceeded;
        }
        AppendToNew(text);
      } else {
        AppendToLast(text);
      }
      ConcatAssociates(sent, waiting, text);
      ConcatAssociates(sent, waiting + text, CRLF);
      queued := queued + text + CRLF;
      return Queued;
    }

    method AppendToNew(text: seq<Byte>)
      requires AllWaiting(queue, messages)
      modifies this`queue
      ensures AllWaiting(queue, messages) && Unsent(queue) == old(Unsent(queue)) + text + CRLF
      ensures forall i :: 0 <= i < |queue| ==> queue[i] in old(queue) || fresh(queue[i])
    {
      hide Unsent;
      hide Covered;
      var buffer := new SocketBuffer.Line(|text| + 2);
      buffer.Append(text);
      assert buffer.Remaining() == text + CRLF by {
        assert [] + text + CRLF == text + CRLF;
      }
      ConcatAssociates(Unsent(queue), text, CRLF);
      Link(buffer);
    }

    method Link(buffer: SocketBuffer)
      requires AllWaiting(queue, messages) && buffer !in queue
      requires buffer.Valid() && buffer.Remaining() != [] && (buffer.isMessage ==> messages)
      modifies this`queue
      ensures AllWaiting(queue, messages) && Unsent(queue) == old(Unsent(queue)) + buffer.Remaining() &&
        queue == old(queue) + [buffer]
    {
      UnsentConcat(queue, [buffer]);
      UnsentOne(buffer);
      queue := queue + [buffer];
    }

    method AppendToLast(text: seq<Byte>)
      requires AllWaiting(queue, false) && queue != [] && |text| + 2 <= queue[|queue| - 1].Space()
      modifies queue`vecs
      ensures AllWaiting(queue, false) && Unsent(queue) == old(Unsent(queue)) + text + CRLF
    {
      var n := |queue| - 1;
      var buffer := queue[n];
      ghost var front := queue[..n];
      assert queue == front + [buffer];
      UnsentConcat(front, [buffer]);
      UnsentOne(buffer);
      ghost var before := Unsent(front);
      buffer.Append(text);
      assert Unsent(front) == before;
      UnsentConcat(front, [buffer]);
      UnsentOne(buffer);
    }

    // socket_queue()
    method QueueMessage(pieces: seq<seq<Byte>>, fds: Option<FdSet>) returns (r: QueueResult)
      requires Valid() && Flat(pieces) != []
      modifies this`queue, this`queued, this`messages
      ensures Valid() && sent == old(sent)
      ensures r == IsShutdown <==> old(hupOut || shutdown)
      ensures queued == if r == Queued then old(queued) + Flat(pieces) else old(queued)
      ensures r != Queued ==> queue == old(queue)
      ensures r == Queued ==> |queue| > 0 && queue[..|queue| - 1] == old(queue) && queue[|queue| - 1].fds == fds
    {
      if hupOut || shutdown {
        return IsShutdown;
      }
      var quota: bool := *;
      if !quota {
        return QuotaExceeded;
      }
      ghost var waiting := Unsent(queue);
      AppendMessage(pieces, fds);
      ConcatAssociates(sent, waiting, Flat(pieces));
      queued := queued + Flat(pieces);
      return Queued;
    }

    method AppendMessage(pieces: seq<seq<Byte>>, fds: Option<FdSet>)
      requires AllWaiting(queue, messages) && Flat(pieces) != []
      modifies this`queue, this`messages
      ensures messages && AllWaiting(queue, true) && Unsent(queue) == old(Unsent(queue)) + Flat(pieces)
      ensures queue != [] && queue[..|queue| - 1] == old(queue) && queue[|queue| - 1].fds == fds
    {
      var buffer := new SocketBuffer.Message(pieces, fds);
      StillWaiting(queue, messages);
      hide AllWaiting;
      hide Unsent;
      hide Flat;
      hide Covered;
      ghost var waiting := Unsent(queue);
      messages := true;
      assert Unsent(queue) == waiting;
      Link(buffer);
    }

    // socket_hangup_output(): what waits is lost
    method Hangup()
      requires AllWaiting(queue, messages) && sent <= queued && |pending| <= 1
      modifies this`hupOut, this`queue
      ensures hupOut && (old(hupOut) ==> queue == old(queue)) && (!old(hupOut) ==> queue == [])
      ensures !old(hupOut) || old(queue) == [] ==> Valid()
    {
      if !hupOut {
        hupOut := true;
        queue := [];
      }
    }

    // socket_shutdown(): nothing more is queued; what waits is still sent
    method Shutdown()
      requires Valid()
      modifies this`shutdown, this`hupOut, this`queue
      ensures Valid() && shutdown
      ensures queue == old(queue) && hupOut == (old(hupOut) || (!old(shutdown) && queue == []))
    {
      if !shutdown {
        shutdown := true;
        if queue == [] {
          Hangup();
        }
      }
    }

    // How many buffers go into one sendmmsg(): descriptors go out with the last one only, and the
    // batch ends because of them, because it is full, or because nothing else waits.
    method Batch() returns (n: nat)
      ensures n <= |queue| && n <= 16
      ensures forall i :: 0 <= i < n - 1 ==> queue[i].fds.None?
      ensures n < |queue| ==> n == 16 || (n > 0 && queue[n - 1].fds.Some?)
    {
      n := 0;
      while n < |queue|
        invariant n <= |queue| && n <= MMSG_MAX && (n < |queue| ==> n < MMSG_MAX)
        invariant forall i :: 0 <= i < n ==> queue[i].fds.None?
      {
        n := n + 1;
        if n >= MMSG_MAX || queue[n - 1].fds.Some? {
          return n;
        }
      }
    }

    // socket_dispatch_write()
    method DispatchWrite(drained: bool, kernel: Sending) returns (r: WriteResult)
      requires Valid() && (kernel.Sent? ==> forall n :: IsBatch(queue, n) ==> Plausible(queue, n, kernel.lens))
      modifies this, queue
      ensures Valid() && queued == old(queued) && old(sent) <= sent <= queued
      ensures (kernel.Sent? && !old(hupOut) && (old(pending) == [] || drained)) ==>
        |sent| == |old(sent)| + Sum(kernel.lens)
      ensures kernel.Again? ==> sent == old(sent) && queue == old(queue)
      ensures old(pending) != [] && !drained ==>
        r == Ready && queue == old(queue) && pending == old(pending) && sent == old(sent) && hupOut == old(hupOut)
      ensures (old(pending) == [] || drained) && (old(hupOut) || old(queue) == []) ==> r == LostInterest
      ensures (old(pending) == [] || drained) && !old(hupOut) && old(queue) != [] ==>
        match kernel
        case Again => r == Ready && hupOut == old(hupOut)
        case HungUp => r == LostInterest && hupOut && queue == []
        case Sent(_) =>
          && (r == LostInterest <==> queue == [] && pending == [])
          && (hupOut <==> queue == [] && shutdown)
      ensures shutdown == old(shutdown)
    {
      r := Ready;
      if pending != [] {
        if !drained {
          return Ready;
        }
        pending := [];
      }
      if hupOut {
        return LostInterest;
      }
      var n := Batch();
      assert IsBatch(queue, n);
      if n == 0 {
        return LostInterest;
      }
      match kernel
      case Again =>
        return Ready;
      case HungUp =>
        Hangup();
        return LostInterest;
      case Sent(lens) =>
        r := Accept(lens);
    }

    // the front of the batch was sent
    method Accept(lens: seq<nat>) returns (r: WriteResult)
      requires Valid() && !hupOut && pending == [] && Takeable(queue, lens, 0)
      requires forall k :: 0 <= k < |lens| - 1 && k < |queue| ==> queue[k].fds.None?
      modifies this`queue, this`pending, this`sent, this`hupOut, queue
      ensures Valid() && old(sent) <= sent <= queued && |sent| == |old(sent)| + Sum(lens)
      ensures r == LostInterest <==> queue == [] && pending == []
      ensures hupOut <==> queue == [] && shutdown
    {
      hide AllWaiting;
      hide Takeable;
      hide Unsent;
      hide Sum;
      Take(lens);
      if queue == [] {
        EmptyQueue();
        if shutdown {
          Hangup();
        }
        if pending == [] {
          return LostInterest;
        }
      }
      return Ready;
    }

    lemma EmptyQueue()
      ensures Unsent([]) == [] && AllWaiting([], messages)
    {
    }

    // the loop over the buffers that the kernel has taken something of
    method Take(lens: seq<nat>)
      requires AllWaiting(queue, messages) && Takeable(queue, lens, 0) && queued == sent + Unsent(queue)
      requires pending == [] && forall k :: 0 <= k < |lens| - 1 && k < |queue| ==> queue[k].fds.None?
      modifies this`queue, this`pending, this`sent, queue
      ensures |pending| <= 1
      ensures AllWaiting(queue, messages) && queued == sent + Unsent(queue)
      ensures old(sent) <= sent && |sent| == |old(sent)| + Sum(lens)
    {
      hide AllWaiting;
      hide TakenOf;
      hide Unsent;
      var i := 0;
      while i < |lens|
        invariant i <= |lens| && Takeable(queue, lens, i)
        invariant AllWaiting(queue, messages) && queued == sent + Unsent(queue)
        invariant old(sent) <= sent && |sent| == |old(sent)| + Sum(lens[..i])
        invariant forall k :: 0 <= k < |queue| ==> queue[k] in old(queue)
        invariant if i < |lens| then pending == [] else |pending| <= 1
        invariant forall k :: 0 <= k < |lens| - i - 1 && k < |queue| ==> queue[k].fds.None?
      {
        assert TakenOf(queue[0], lens[i], i + 1 == |lens|);
        assert lens[..i + 1][..i] == lens[..i];
        TakeFirst(lens, i);
        i := i + 1;
      }
      assert lens[..i] == lens;
    }

    method TakeFirst(lens: seq<nat>, i: nat)
      requires AllWaiting(queue, messages) && i < |lens| && Takeable(queue, lens, i) && queue != []
      requires queued == sent + Unsent(queue)
      modifies this`queue, this`pending, this`sent, queue
      ensures AllWaiting(queue, messages) && Takeable(queue, lens, i + 1) && queued == sent + Unsent(queue)
      ensures old(sent) <= sent && |sent| == |old(sent)| + lens[i]
      ensures queue == old(queue)[1..] || (queue == old(queue) && i + 1 == |lens|)
      ensures if old(queue)[0].fds.Some? then |pending| <= |old(pending)| + 1 else pending == old(pending)
    {
      hide AllWaiting;
      hide Unsent;
      hide Covered;
      hide Takeable;
      var consumed, front, left := ConsumeFirst(lens, i);
      ConcatAssociates(sent, front, left);
      if consumed {
        Unlink();
      }
      sent := sent + front;
      assert Unsent(queue) == left;
    }

    // a buffer that was sent; its descriptors keep it alive
    method Unlink()
      requires queue != []
      modifies this`queue, this`pending
      ensures queue == old(queue)[1..]
      ensures pending == old(pending) + if old(queue)[0].fds.Some? then [old(queue)[0]] else []
    {
      if queue[0].fds.Some? {
        pending := pending + [queue[0]];
      }
      queue := queue[1..];
    }

    method ConsumeFirst(lens: seq<nat>, i: nat) returns (consumed: bool, ghost front: seq<Byte>, ghost left: seq<Byte>)
      requires AllWaiting(queue, messages) && i < |lens| && Takeable(queue, lens, i) && queue != []
      modifies queue[0]
      ensures left == Unsent(if consumed then queue[1..] else queue) && |front| == lens[i]
      ensures old(Unsent(queue)) == front + left
      ensures AllWaiting(if consumed then queue[1..] else queue, messages)
      ensures Takeable(if consumed then queue[1..] else queue, lens, i + 1)
      ensures consumed || i + 1 == |lens|
    {
      hide Covered;
      hide Passed;
      var n, buffer := lens[i], queue[0];
      ghost var rest, all := queue[1..], buffer.Remaining();
      assert TakenOf(buffer, n, i + 1 == |lens|);
      RestTakeable(lens, i);
      UnsentFirst(queue);
      hide Unsent;
      hide Takeable;
      ghost var others := Unsent(rest);
      front := all[..n];
      assert buffer !in rest && AllWaiting(rest, messages);
      consumed := buffer.Consume(n);
      assert Unsent(rest) == others && all == front + all[n..];
      UnsentFirst(queue);
      left := if consumed then others else all[n..] + others;
      ConcatAssociates(front, all[n..], others);
      if !consumed {
        NoneTakeable(queue, lens);
      }
    }

    lemma RestTakeable(lens: seq<nat>, i: nat)
      requires i < |lens| && Takeable(queue, lens, i) && queue != []
      ensures Takeable(queue[1..], lens, i + 1)
    {
      forall j | i + 1 <= j < |lens| ensures TakenOf(queue[1..][j - i - 1], lens[j], j + 1 == |lens|) {
        assert queue[1..][j - i - 1] == queue[j - i] && TakenOf(queue[j - i], lens[j], j + 1 == |lens|);
      }
    }
  }

  lemma NoneTakeable(q: seq<SocketBuffer>, lens: seq<nat>)
    ensures Takeable(q, lens, |lens|)
  {
  }

  lemma UnsentFirst(q: seq<SocketBuffer>)
    requires q != []
    ensures Unsent(q) == q[0].Remaining() + Unsent(q[1..])
  {
  }

  // what Batch() promises of n
  ghost predicate IsBatch(q: seq<SocketBuffer>, n: nat) {
    && n <= |q| && n <= MMSG_MAX
    && (forall i :: 0 <= i < n - 1 ==> q[i].fds.None?)
    && (n < |q| ==> n == MMSG_MAX || (n > 0 && q[n - 1].fds.Some?))
  }

  // There is only one such n.
  lemma BatchUnique(q: seq<SocketBuffer>, m: nat, n: nat)
    requires IsBatch(q, m) && IsBatch(q, n)
    ensures m == n
  {
  }

  // What the kernel takes is the front of a batch of n: everything but part of the last message.
  ghost predicate Plausible(q: seq<SocketBuffer>, n: nat, lens: seq<nat>)
    reads q
  {
    |lens| <= n && Takeable(q, lens, 0)
  }

  // ... of which the first i are taken
  ghost predicate Takeable(q: seq<SocketBuffer>, lens: seq<nat>, i: nat)
    reads q
  {
    && i <= |lens| && (i < |lens| ==> |lens| - i <= |q|)
    && forall j :: i <= j < |lens| ==> TakenOf(q[j - i], lens[j], j + 1 == |lens|)
  }

  ghost predicate TakenOf(b: SocketBuffer, n: nat, last: bool)
    reads b
  {
    if last then n <= |b.Remaining()| else n == |b.Remaining()|
  }

  function Sum(lens: seq<nat>): nat {
    if lens == [] then 0 else Sum(lens[..|lens| - 1]) + lens[|lens| - 1]
  }
}
