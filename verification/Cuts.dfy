/**
 Several sets of file descriptors that come with one message. A further set is dropped if its
 chunk is read directly into the message (socket_recvmsg() in src/dbus/socket.c), but refused if it
 goes through the buffer (iqueue_pop_data() in src/dbus/queue.c). Here is which of the two happens
 for a given way of cutting the message, and for which messages it depends on the cut.
 */
module Cuts {
  import opened Base
  import opened Bytes
  import InputQueue
  import Message

  const RECV_MAX := InputQueue.RECV_MAX
  const HEADER_SIZE := Message.HEADER_SIZE

  // what one read returns
  datatype Chunk = Chunk(bytes: seq<Byte>, fds: Option<FdSet>)

  // one way of cutting a message, or the first part of it
  type Cut = seq<Chunk>

  function Joined(cut: Cut): seq<Byte> {
    if cut == [] then [] else Joined(cut[..|cut| - 1]) + cut[|cut| - 1].bytes
  }

  predicate NoneEmpty(cut: Cut) {
    forall i :: 0 <= i < |cut| ==> cut[i].bytes != []
  }

  // The sets that were sent, by the last byte of their chunk
  function Offered(cut: Cut): map<nat, FdSet>
    requires NoneEmpty(cut)
  {
    if cut == [] then map[]
    else
      var front, last := Offered(cut[..|cut| - 1]), cut[|cut| - 1].fds;
      if last.Some? then front[|Joined(cut)| - 1 := last.value] else front
  }

  function FirstSet(cut: Cut): Option<FdSet> {
    if cut == [] then None
    else
      var front := FirstSet(cut[..|cut| - 1]);
      if front.Some? then front else cut[|cut| - 1].fds
  }

  // What is read from byte `from` of a message of n bytes on goes through the buffer: the header
  // always does, and so does the end of the message.
  predicate Buffered(from: nat, n: nat) {
    from < HEADER_SIZE || n - from < RECV_MAX
  }

  // Reads into the buffer return no more than fits.
  ghost predicate Readable(cut: Cut, n: nat) {
    && NoneEmpty(cut)
    && forall j :: 0 <= j < |cut| ==> (Buffered(|Joined(cut[..j])|, n) ==> |cut[j].bytes| <= RECV_MAX)
  }

  // Chunk j brings a further set and goes through the buffer.
  ghost predicate RefusedAt(cut: Cut, n: nat, j: nat) {
    && j < |cut| && cut[j].fds.Some? && FirstSet(cut[..j]).Some?
    && Buffered(|Joined(cut[..j])|, n)
  }

  ghost predicate Refused(cut: Cut, n: nat) {
    exists j: nat :: RefusedAt(cut, n, j)
  }

  // A cut is refused exactly if a chunk that begins within the 16 bytes of the header, or less than 2048
  // bytes before the end, brings a set after another one.
  lemma RefusedIff(cut: Cut, n: nat)
    ensures Refused(cut, n) <==>
      exists i: nat, j: nat ::
        && i < j < |cut| && cut[i].fds.Some? && cut[j].fds.Some?
        && (|Joined(cut[..j])| < 16 || n - |Joined(cut[..j])| < 2048)
  {
    if j: nat :| RefusedAt(cut, n, j) {
      FirstSetIs(cut[..j]);
      var i :| 0 <= i < j && cut[..j][i].fds.Some?;
      assert cut[i].fds.Some?;
    }
    if i: nat, j: nat :|
      && i < j < |cut| && cut[i].fds.Some? && cut[j].fds.Some?
      && (|Joined(cut[..j])| < 16 || n - |Joined(cut[..j])| < 2048) {
      FirstSetIs(cut[..j]);
      assert cut[..j][i].fds.Some?;
      assert RefusedAt(cut, n, j);
    }
  }

  // ---------------------------------------------------------------- one chunk more

  lemma JoinedMore(cut: Cut, chunk: Chunk)
    ensures Joined(cut + [chunk]) == Joined(cut) + chunk.bytes
    ensures FirstSet(cut + [chunk]) == if FirstSet(cut).Some? then FirstSet(cut) else chunk.fds
  {
    assert (cut + [chunk])[..|cut|] == cut;
  }

  lemma OfferedMore(cut: Cut, chunk: Chunk)
    requires NoneEmpty(cut) && chunk.bytes != []
    ensures NoneEmpty(cut + [chunk])
    ensures Offered(cut + [chunk]) ==
      if chunk.fds.Some? then Offered(cut)[|Joined(cut)| + |chunk.bytes| - 1 := chunk.fds.value] else Offered(cut)
  {
    JoinedMore(cut, chunk);
    hide Joined;
    OfferedLast(cut + [chunk]);
    hide Offered;
    assert (cut + [chunk])[..|cut|] == cut && (cut + [chunk])[|cut|] == chunk;
  }

  lemma OfferedLast(cut: Cut)
    requires NoneEmpty(cut) && cut != []
    ensures var front, last := Offered(cut[..|cut| - 1]), cut[|cut| - 1].fds;
      Offered(cut) == if last.Some? then front[|Joined(cut)| - 1 := last.value] else front
  {
  }

  lemma ReadableMore(cut: Cut, chunk: Chunk, n: nat)
    requires Readable(cut, n) && chunk.bytes != []
    requires Buffered(|Joined(cut)|, n) ==> |chunk.bytes| <= RECV_MAX
    ensures Readable(cut + [chunk], n)
  {
    var more := cut + [chunk];
    assert more[..|cut|] == cut;
    forall j | 0 <= j < |more| && Buffered(|Joined(more[..j])|, n) ensures |more[j].bytes| <= RECV_MAX {
      assert more[..j] == cut[..j];
    }
  }

  lemma RefusedMore(cut: Cut, chunk: Chunk, n: nat)
    ensures Refused(cut + [chunk], n) <==>
      Refused(cut, n) || (chunk.fds.Some? && FirstSet(cut).Some? && Buffered(|Joined(cut)|, n))
  {
    var more := cut + [chunk];
    assert more[..|cut|] == cut;
    if j: nat :| RefusedAt(more, n, j) {
      assert j < |cut| ==> more[..j] == cut[..j] && RefusedAt(cut, n, j);
    }
    if j: nat :| RefusedAt(cut, n, j) {
      assert more[..j] == cut[..j] && RefusedAt(more, n, j);
    }
    if chunk.fds.Some? && FirstSet(cut).Some? && Buffered(|Joined(cut)|, n) {
      assert RefusedAt(more, n, |cut|);
    }
  }

  // the bytes before and after a place in the cut
  lemma {:induction false} JoinedAt(cut: Cut, i: nat)
    requires i <= |cut| && NoneEmpty(cut)
    ensures |Joined(cut[..i])| + (|cut| - i) <= |Joined(cut)|
    decreases |cut| - i
  {
    if i < |cut| {
      assert cut[..i + 1] == cut[..i] + [cut[i]];
      JoinedMore(cut[..i], cut[i]);
      JoinedAt(cut, i + 1);
    } else {
      assert cut[..i] == cut;
    }
  }

  // ---------------------------------------------------------------- where the sets are

  lemma {:induction false} FirstSetIs(cut: Cut)
    ensures FirstSet(cut).Some? <==> exists i :: 0 <= i < |cut| && cut[i].fds.Some?
  {
    if cut != [] {
      var front := cut[..|cut| - 1];
      FirstSetIs(front);
      assert forall i :: 0 <= i < |front| ==> front[i] == cut[i];
    }
  }

  // the last byte of chunk j
  function LastByte(cut: Cut, j: nat): int
    requires j < |cut|
  {
    |Joined(cut[..j + 1])| - 1
  }

  lemma {:induction false} OfferedAt(cut: Cut, p: nat)
    requires NoneEmpty(cut)
    ensures p in Offered(cut) <==> exists j: nat :: j < |cut| && cut[j].fds.Some? && LastByte(cut, j) == p
  {
    if cut != [] {
      var front := cut[..|cut| - 1];
      OfferedAt(front, p);
      assert cut[..|cut|] == cut;
      assert forall j: nat :: j < |front| ==> front[j] == cut[j] && front[..j + 1] == cut[..j + 1];
      if p in Offered(front) {
        var j: nat :| j < |front| && front[j].fds.Some? && LastByte(front, j) == p;
        assert LastByte(cut, j) == p;
      }
      if j: nat :| j < |cut| && cut[j].fds.Some? && LastByte(cut, j) == p {
        assert j < |front| ==> LastByte(front, j) == p;
      }
    }
  }

  lemma Earlier(cut: Cut, i: nat, j: nat)
    requires i < j < |cut| && NoneEmpty(cut)
    ensures LastByte(cut, i) < |Joined(cut[..j])|
  {
    assert cut[..j][..i + 1] == cut[..i + 1];
    JoinedAt(cut[..j], i + 1);
  }

  // the bytes of chunk j
  lemma ChunkAt(cut: Cut, j: nat)
    requires j < |cut| && NoneEmpty(cut)
    ensures |Joined(cut[..j])| <= LastByte(cut, j) == |Joined(cut[..j])| + |cut[j].bytes| - 1 < |Joined(cut)|
  {
    assert cut[..j + 1] == cut[..j] + [cut[j]];
    JoinedMore(cut[..j], cut[j]);
    JoinedAt(cut, j + 1);
  }

  // the chunk that brings set q, if a set p comes before it
  lemma BroughtBy(cut: Cut, p: nat, q: nat) returns (j: nat)
    requires NoneEmpty(cut) && p in Offered(cut) && q in Offered(cut) && p < q
    ensures j < |cut| && cut[j].fds.Some? && FirstSet(cut[..j]).Some?
    ensures p < |Joined(cut[..j])| <= q == LastByte(cut, j)
  {
    OfferedAt(cut, p);
    OfferedAt(cut, q);
    var i: nat :| i < |cut| && cut[i].fds.Some? && LastByte(cut, i) == p;
    j :| j < |cut| && cut[j].fds.Some? && LastByte(cut, j) == q;
    if j < i {
      Earlier(cut, j, i);
      ChunkAt(cut, i);
    }
    Earlier(cut, i, j);
    ChunkAt(cut, j);
    FirstSetIs(cut[..j]);
    assert cut[..j][i].fds.Some?;
  }

  // ---------------------------------------------------------------- whether the cut matters

  // the cuts of a message with these sets
  ghost predicate IsCut(cut: Cut, bytes: seq<Byte>, sets: map<nat, FdSet>) {
    Readable(cut, |bytes|) && Joined(cut) == bytes && Offered(cut) == sets
  }

  // A further set q comes near the end, or it may come in one chunk with a part of the header.
  predicate Risky(p: nat, q: nat, n: nat) {
    n - q < RECV_MAX || (p + 1 < HEADER_SIZE && q + 2 <= RECV_MAX + HEADER_SIZE)
  }

  // A further set q comes with the header, or what follows set p and the header goes through the
  // buffer.
  predicate Doomed(p: nat, q: nat, n: nat) {
    q < HEADER_SIZE || n - Max(p + 1, HEADER_SIZE) < RECV_MAX
  }

  ghost predicate MayRefuse(sets: map<nat, FdSet>, n: nat) {
    exists p, q :: p in sets && q in sets && p < q && Risky(p, q, n)
  }

  ghost predicate MustRefuse(sets: map<nat, FdSet>, n: nat) {
    exists p, q :: p in sets && q in sets && p < q && Doomed(p, q, n)
  }

  // No cut of any other message is refused.
  lemma RefusedIsRisky(cut: Cut, n: nat)
    requires Readable(cut, n) && Refused(cut, n)
    ensures MayRefuse(Offered(cut), n)
  {
    var j: nat :| RefusedAt(cut, n, j);
    FirstSetIs(cut[..j]);
    var i :| 0 <= i < j && cut[..j][i].fds.Some?;
    Earlier(cut, i, j);
    ChunkAt(cut, i);
    ChunkAt(cut, j);
    OfferedAt(cut, LastByte(cut, i));
    OfferedAt(cut, LastByte(cut, j));
    assert LastByte(cut, i) in Offered(cut) && LastByte(cut, j) in Offered(cut);
    assert Risky(LastByte(cut, i), LastByte(cut, j), n);
  }

  // Every cut of such a message is refused.
  lemma DoomedIsRefused(cut: Cut, n: nat)
    requires Readable(cut, n) && MustRefuse(Offered(cut), n)
    ensures Refused(cut, n)
  {
    var p, q :| p in Offered(cut) && q in Offered(cut) && p < q && Doomed(p, q, n);
    var j := BroughtBy(cut, p, q);
    assert RefusedAt(cut, n, j);
  }

  // the last place to cut before byte e
  function Before(at: set<nat>, e: nat): (b: nat)
    requires e > 0
    ensures b < e && (b == 0 || b in at) && forall x :: x in at && x < e ==> x <= b
  {
    if e == 1 || e - 1 in at then e - 1 else Before(at, e - 1)
  }

  function SetAt(sets: map<nat, FdSet>, p: nat): Option<FdSet> {
    if p in sets then Some(sets[p]) else None
  }

  // the first e bytes, cut at these places
  function CutAt(bytes: seq<Byte>, sets: map<nat, FdSet>, at: set<nat>, e: nat): Cut
    requires e <= |bytes|
  {
    if e == 0 then []
    else
      var b := Before(at, e);
      CutAt(bytes, sets, at, b) + [Chunk(bytes[b..e], SetAt(sets, e - 1))]
  }

  ghost predicate BehindSets(sets: map<nat, FdSet>, at: set<nat>) {
    forall p :: p in sets ==> p + 1 in at
  }

  function Under(sets: map<nat, FdSet>, e: nat): map<nat, FdSet> {
    map p | p in sets && p < e :: sets[p]
  }

  lemma UnderStep(sets: map<nat, FdSet>, at: set<nat>, e: nat)
    requires BehindSets(sets, at) && e > 0
    ensures Under(sets, e) ==
      var set', front := SetAt(sets, e - 1), Under(sets, Before(at, e));
      if set'.Some? then front[e - 1 := set'.value] else front
    ensures forall p :: p in sets && Before(at, e) <= p < e ==> p == e - 1
  {
    forall p | p in sets && Before(at, e) <= p < e ensures p == e - 1 {
      assert p + 1 in at;
    }
  }

  lemma {:induction false} CutAtIsCut(bytes: seq<Byte>, sets: map<nat, FdSet>, at: set<nat>, e: nat)
    requires e <= |bytes| && BehindSets(sets, at)
    ensures var cut := CutAt(bytes, sets, at, e);
      NoneEmpty(cut) && Joined(cut) == bytes[..e] && Offered(cut) == Under(sets, e)
  {
    if e == 0 {
      assert CutAt(bytes, sets, at, e) == [];
    } else {
      var b := Before(at, e);
      CutAtIsCut(bytes, sets, at, b);
      CutAtStep(bytes, sets, at, e, b, CutAt(bytes, sets, at, b));
    }
  }

  // the last chunk
  lemma CutAtStep(bytes: seq<Byte>, sets: map<nat, FdSet>, at: set<nat>, e: nat, b: nat, front: Cut)
    requires 0 < e <= |bytes| && BehindSets(sets, at) && b == Before(at, e) && front == CutAt(bytes, sets, at, b)
    requires NoneEmpty(front) && Joined(front) == bytes[..b] && Offered(front) == Under(sets, b)
    ensures var cut := CutAt(bytes, sets, at, e);
      NoneEmpty(cut) && Joined(cut) == bytes[..e] && Offered(cut) == Under(sets, e)
  {
    hide *;
    var last := Chunk(bytes[b..e], SetAt(sets, e - 1));
    CutAtLast(bytes, sets, at, e);
    UnderStep(sets, at, e);
    OfferedMore(front, last);
    JoinedMore(front, last);
    SlicesMeet(bytes, b, e);
  }

  lemma CutAtLast(bytes: seq<Byte>, sets: map<nat, FdSet>, at: set<nat>, e: nat)
    requires 0 < e <= |bytes|
    ensures var b := Before(at, e);
      b < e && CutAt(bytes, sets, at, e) == CutAt(bytes, sets, at, b) + [Chunk(bytes[b..e], SetAt(sets, e - 1))]
  {
  }

  lemma SlicesMeet(bytes: seq<Byte>, b: nat, e: nat)
    requires b < e <= |bytes|
    ensures bytes[..b] + bytes[b..e] == bytes[..e] && bytes[b..e] != []
  {
  }

  lemma CutAtFirst(bytes: seq<Byte>, sets: map<nat, FdSet>, at: set<nat>, e: nat)
    requires e <= |bytes| && BehindSets(sets, at)
    ensures FirstSet(CutAt(bytes, sets, at, e)).Some? <==> exists p :: p in sets && p < e
  {
    CutAtIsCut(bytes, sets, at, e);
    FirstSetOffered(CutAt(bytes, sets, at, e));
    hide CutAt;
    hide FirstSet;
    hide Offered;
    if p :| p in sets && p < e {
      assert p in Under(sets, e);
    }
  }

  lemma {:induction false} FirstSetOffered(cut: Cut)
    requires NoneEmpty(cut)
    ensures FirstSet(cut).Some? <==> Offered(cut) != map[]
  {
    if cut != [] {
      var front, last := cut[..|cut| - 1], cut[|cut| - 1].fds;
      FirstSetOffered(front);
      if last.Some? {
        var p: nat := |Joined(cut)| - 1;
        assert p in Offered(cut) && FirstSet(cut).Some?;
      } else {
        assert Offered(cut) == Offered(front) && FirstSet(cut) == FirstSet(front);
      }
    }
  }

  ghost predicate Fits(at: set<nat>, n: nat, e: nat)
    requires e > 0
  {
    Buffered(Before(at, e), n) ==> e - Before(at, e) <= RECV_MAX
  }

  lemma {:induction false} CutAtReadable(bytes: seq<Byte>, sets: map<nat, FdSet>, at: set<nat>, e: nat, n: nat)
    requires e <= |bytes| && BehindSets(sets, at)
    requires e > 0 ==> Fits(at, n, e)
    requires forall x :: x in at && 0 < x < e ==> Fits(at, n, x)
    ensures Readable(CutAt(bytes, sets, at, e), n)
  {
    if e > 0 {
      var b := Before(at, e);
      CutAtReadable(bytes, sets, at, b, n);
      CutAtIsCut(bytes, sets, at, b);
      ReadableMore(CutAt(bytes, sets, at, b), Chunk(bytes[b..e], SetAt(sets, e - 1)), n);
    }
  }

  // set q is a further one, and its chunk goes through the buffer
  ghost predicate RefusedSet(sets: map<nat, FdSet>, at: set<nat>, n: nat, q: nat) {
    var b := Before(at, q + 1);
    q in sets && Buffered(b, n) && exists p :: p in sets && p < b
  }

  lemma {:induction false} CutAtRefused(bytes: seq<Byte>, sets: map<nat, FdSet>, at: set<nat>, e: nat, n: nat)
    requires e <= |bytes| && BehindSets(sets, at)
    ensures Refused(CutAt(bytes, sets, at, e), n) <==> exists q: nat :: q < e && RefusedSet(sets, at, n, q)
  {
    if e > 0 {
      var b := Before(at, e);
      CutAtRefused(bytes, sets, at, b, n);
      CutAtLast(bytes, sets, at, e);
      CutAtIsCut(bytes, sets, at, b);
      CutAtFirst(bytes, sets, at, b);
      hide *;
      RefusedMore(CutAt(bytes, sets, at, b), Chunk(bytes[b..e], SetAt(sets, e - 1)), n);
      RefusedSetStep(sets, at, n, e);
    } else {
      NothingRefused(bytes, sets, at, n);
    }
  }

  lemma NothingRefused(bytes: seq<Byte>, sets: map<nat, FdSet>, at: set<nat>, n: nat)
    ensures !Refused(CutAt(bytes, sets, at, 0), n)
  {
  }

  // Between the last place to cut and e only the last byte can come with a set.
  lemma RefusedSetStep(sets: map<nat, FdSet>, at: set<nat>, n: nat, e: nat)
    requires BehindSets(sets, at) && e > 0
    ensures var b := Before(at, e);
      b < e &&
      ((exists q: nat :: q < e && RefusedSet(sets, at, n, q)) <==>
        || (exists q: nat :: q < b && RefusedSet(sets, at, n, q))
        || (SetAt(sets, e - 1).Some? && (exists p :: p in sets && p < b) && Buffered(b, n)))
  {
    var b := Before(at, e);
    UnderStep(sets, at, e);
    assert RefusedSet(sets, at, n, e - 1) <==>
      SetAt(sets, e - 1).Some? && (exists p :: p in sets && p < b) && Buffered(b, n);
    assert forall q: nat :: b <= q < e && RefusedSet(sets, at, n, q) ==> q == e - 1;
    hide *;
  }

  // right behind each set
  ghost function Behind(sets: map<nat, FdSet>): set<nat> {
    set p | p in sets :: p + 1
  }

  // Whatever is read between two of these places fits.
  ghost predicate AllFit(at: set<nat>, n: nat) {
    forall x: nat :: 0 < x <= n && (x in at || x == n) ==> Fits(at, n, x)
  }

  lemma PossibleCut(bytes: seq<Byte>, sets: map<nat, FdSet>, at: set<nat>)
    requires BehindSets(sets, at) && AllFit(at, |bytes|) && forall p :: p in sets ==> p < |bytes|
    ensures IsCut(CutAt(bytes, sets, at, |bytes|), bytes, sets)
  {
    hide BehindSets;
    hide Fits;
    hide Readable;
    hide Joined;
    hide Offered;
    CutAtReadable(bytes, sets, at, |bytes|, |bytes|);
    CutAtIsCut(bytes, sets, at, |bytes|);
    assert Under(sets, |bytes|) == sets && bytes[..|bytes|] == bytes;
  }

  // It fits if the header is read by itself.
  lemma FitsBehindHeader(at: set<nat>, n: nat)
    requires HEADER_SIZE in at
    ensures AllFit(at, n)
  {
  }

  // Cut there and nowhere else, the message is refused only if it always is.
  lemma AcceptedCut(bytes: seq<Byte>, sets: map<nat, FdSet>)
    requires (forall p :: p in sets ==> p < |bytes|) && !MustRefuse(sets, |bytes|)
    ensures exists cut :: IsCut(cut, bytes, sets) && !Refused(cut, |bytes|)
  {
    var n, at := |bytes|, Behind(sets) + {HEADER_SIZE};
    FitsBehindHeader(at, n);
    PossibleCut(bytes, sets, at);
    CutAtRefused(bytes, sets, at, n, n);
    forall q: nat | q < n ensures !RefusedSet(sets, at, n, q) {
      NotRefusedSet(sets, n, q);
    }
    hide RefusedSet;
    assert IsCut(CutAt(bytes, sets, at, n), bytes, sets);
  }

  lemma NotRefusedSet(sets: map<nat, FdSet>, n: nat, q: nat)
    requires !MustRefuse(sets, n)
    ensures !RefusedSet(sets, Behind(sets) + {HEADER_SIZE}, n, q)
  {
    var at := Behind(sets) + {HEADER_SIZE};
    var b := Before(at, q + 1);
    if q in sets && Buffered(b, n) {
      if p :| p in sets && p < b {
        assert !Doomed(p, q, n);
        assert HEADER_SIZE in at && b >= HEADER_SIZE;
        if b != HEADER_SIZE {
          var r :| r in sets && b == r + 1;
          assert !Doomed(r, q, n);
        }
      }
    }
  }

  // the set that follows set p
  lemma {:induction false} NextSet(sets: map<nat, FdSet>, p: nat, q: nat) returns (r: nat)
    requires q in sets && p < q
    ensures r in sets && p < r <= q
    ensures forall x :: x in sets && p < x ==> r <= x
    decreases q
  {
    if x :| x in sets && p < x < q {
      r := NextSet(sets, p, x);
    } else {
      r := q;
    }
  }

  // Cut once more in front of that set, or within the header, the message is refused if it ever is.
  lemma RefusedCut(bytes: seq<Byte>, sets: map<nat, FdSet>)
    requires (forall p :: p in sets ==> p < |bytes|) && MayRefuse(sets, |bytes|)
    ensures exists cut :: IsCut(cut, bytes, sets) && Refused(cut, |bytes|)
  {
    var n := |bytes|;
    var p, q :| p in sets && q in sets && p < q && Risky(p, q, n);
    if n - q < RECV_MAX {
      var at := Behind(sets) + {HEADER_SIZE, q};
      assert q in at;
      FitsBehindHeader(at, n);
      RefusedBy(bytes, sets, at, p, q);
    } else {
      var r := NextSet(sets, p, q);
      if r < HEADER_SIZE {
        var at := Behind(sets) + {HEADER_SIZE};
        FitsBehindHeader(at, n);
        RefusedBy(bytes, sets, at, p, r);
      } else {
        RefusedInHeader(bytes, sets, p, r);
      }
    }
  }

  lemma RefusedBy(bytes: seq<Byte>, sets: map<nat, FdSet>, at: set<nat>, p: nat, q: nat)
    requires (forall p :: p in sets ==> p < |bytes|) && p in sets && q in sets && p < q
    requires BehindSets(sets, at) && AllFit(at, |bytes|) && Buffered(Before(at, q + 1), |bytes|)
    ensures exists cut :: IsCut(cut, bytes, sets) && Refused(cut, |bytes|)
  {
    var n := |bytes|;
    assert p + 1 in at;
    assert RefusedSet(sets, at, n, q);
    hide RefusedSet;
    hide IsCut;
    hide Refused;
    PossibleCut(bytes, sets, at);
    CutAtRefused(bytes, sets, at, n, n);
  }

  // One byte of the header and everything up to set q come in one chunk.
  lemma RefusedInHeader(bytes: seq<Byte>, sets: map<nat, FdSet>, p: nat, q: nat)
    requires (forall p :: p in sets ==> p < |bytes|) && p in sets && q in sets
    requires p + 1 < HEADER_SIZE <= q && q + 2 <= RECV_MAX + HEADER_SIZE
    requires forall x :: x in sets && p < x ==> q <= x
    ensures exists cut :: IsCut(cut, bytes, sets) && Refused(cut, |bytes|)
  {
    var n, at := |bytes|, Behind(sets) + {HEADER_SIZE - 1};
    assert q + 1 in at && HEADER_SIZE - 1 in at;
    FitsInHeader(at, n, q + 1);
    LastInHeader(sets, p, q);
    RefusedBy(bytes, sets, at, p, q);
  }

  lemma FitsInHeader(at: set<nat>, n: nat, e: nat)
    requires HEADER_SIZE - 1 in at && e in at && HEADER_SIZE <= e < RECV_MAX + HEADER_SIZE
    ensures AllFit(at, n)
  {
  }

  lemma LastInHeader(sets: map<nat, FdSet>, p: nat, q: nat)
    requires p in sets && q in sets && p + 1 < HEADER_SIZE <= q
    requires forall x :: x in sets && p < x ==> q <= x
    ensures Before(Behind(sets) + {HEADER_SIZE - 1}, q + 1) == HEADER_SIZE - 1
    ensures BehindSets(sets, Behind(sets) + {HEADER_SIZE - 1})
  {
    var at := Behind(sets) + {HEADER_SIZE - 1};
    assert HEADER_SIZE - 1 in at;
  }

  // One cut is refused and another one is not.
  ghost predicate CutMatters(bytes: seq<Byte>, sets: map<nat, FdSet>) {
    && (exists cut :: IsCut(cut, bytes, sets) && Refused(cut, |bytes|))
    && (exists cut :: IsCut(cut, bytes, sets) && !Refused(cut, |bytes|))
  }

  // A message with these sets can be cut so that it is refused, and so that it is not, exactly
  // under these conditions. In between, and only there, it depends on the cut.
  lemma CutMattersIff(bytes: seq<Byte>, sets: map<nat, FdSet>)
    requires forall p :: p in sets ==> p < |bytes|
    ensures (exists cut :: IsCut(cut, bytes, sets) && Refused(cut, |bytes|)) <==> MayRefuse(sets, |bytes|)
    ensures (exists cut :: IsCut(cut, bytes, sets) && !Refused(cut, |bytes|)) <==> !MustRefuse(sets, |bytes|)
    ensures CutMatters(bytes, sets) <==> MayRefuse(sets, |bytes|) && !MustRefuse(sets, |bytes|)
  {
    var n := |bytes|;
    if cut :| IsCut(cut, bytes, sets) && Refused(cut, n) {
      RefusedIsRisky(cut, n);
    }
    if cut :| IsCut(cut, bytes, sets) && !Refused(cut, n) {
      if MustRefuse(sets, n) {
        DoomedIsRefused(cut, n);
      }
    }
    if MayRefuse(sets, n) {
      RefusedCut(bytes, sets);
    }
    if !MustRefuse(sets, n) {
      AcceptedCut(bytes, sets);
    }
  }

  // A message of 4000 bytes with sets behind its first 100 and its first 2600 bytes is read as a
  // whole if it is cut just there, and refused if it is cut once more behind 2100 bytes.
  lemma CutMattersExample(bytes: seq<Byte>, a: FdSet, b: FdSet)
    requires |bytes| == 4000
    ensures var c0, c3 := Chunk(bytes[..100], Some(a)), Chunk(bytes[2600..], None);
      var direct := [c0, Chunk(bytes[100..2600], Some(b)), c3];
      var buffered := [c0, Chunk(bytes[100..2100], None), Chunk(bytes[2100..2600], Some(b)), c3];
      var sets := map[99 := a, 2599 := b];
      && IsCut(direct, bytes, sets) && !Refused(direct, 4000)
      && IsCut(buffered, bytes, sets) && Refused(buffered, 4000)
  {
    var c0, c3 := Chunk(bytes[..100], Some(a)), Chunk(bytes[2600..], None);
    var c1 := Chunk(bytes[100..2600], Some(b));
    var d1, d2 := Chunk(bytes[100..2100], None), Chunk(bytes[2100..2600], Some(b));
    assert bytes[..100] + bytes[100..2600] == bytes[..2600] && bytes[..2600] + bytes[2600..] == bytes;
    assert bytes[..100] + bytes[100..2100] == bytes[..2100] && bytes[..2100] + bytes[2100..2600] == bytes[..2600];
    DirectExample(c0, c1, c3, a, b);
    BufferedExample(c0, d1, d2, c3, a, b);
  }

  lemma DirectExample(c0: Chunk, c1: Chunk, c2: Chunk, a: FdSet, b: FdSet)
    requires |c0.bytes| == 100 && |c1.bytes| == 2500 && |c2.bytes| == 1400
    requires c0.fds == Some(a) && c1.fds == Some(b) && c2.fds.None?
    ensures var cut, bytes := [c0, c1, c2], c0.bytes + c1.bytes + c2.bytes;
      IsCut(cut, bytes, map[99 := a, 2599 := b]) && !Refused(cut, 4000)
  {
    var f1 := Facts(c0.bytes, Some(a), map[99 := a], false);
    var f2 := Facts(c0.bytes + c1.bytes, Some(a), map[99 := a, 2599 := b], false);
    var f3 := f2.(joined := c0.bytes + c1.bytes + c2.bytes);
    assert [c0] == [] + [c0] && [c0, c1] == [c0] + [c1] && [c0, c1, c2] == [c0, c1] + [c2];
    NothingRead(4000);
    assert Next(NO_FACTS, c0, 4000) == f1 && Next(f1, c1, 4000) == f2 && Next(f2, c2, 4000) == f3;
    assert Holds([c0, c1, c2], 4000, f3) by {
      hide Holds, Next;
      Grows([], c0, 4000, NO_FACTS);
      Grows([c0], c1, 4000, f1);
      Grows([c0, c1], c2, 4000, f2);
    }
  }

  lemma BufferedExample(c0: Chunk, c1: Chunk, c2: Chunk, c3: Chunk, a: FdSet, b: FdSet)
    requires |c0.bytes| == 100 && |c1.bytes| == 2000 && |c2.bytes| == 500 && |c3.bytes| == 1400
    requires c0.fds == Some(a) && c1.fds.None? && c2.fds == Some(b) && c3.fds.None?
    ensures var cut, bytes := [c0, c1, c2, c3], c0.bytes + c1.bytes + c2.bytes + c3.bytes;
      IsCut(cut, bytes, map[99 := a, 2599 := b]) && Refused(cut, 4000)
  {
    var f1 := Facts(c0.bytes, Some(a), map[99 := a], false);
    var f2 := f1.(joined := c0.bytes + c1.bytes);
    var f3 := Facts(c0.bytes + c1.bytes + c2.bytes, Some(a), map[99 := a, 2599 := b], true);
    var f4 := f3.(joined := c0.bytes + c1.bytes + c2.bytes + c3.bytes);
    assert [c0] == [] + [c0] && [c0, c1] == [c0] + [c1] && [c0, c1, c2] == [c0, c1] + [c2];
    assert [c0, c1, c2, c3] == [c0, c1, c2] + [c3];
    NothingRead(4000);
    assert Next(NO_FACTS, c0, 4000) == f1 && Next(f1, c1, 4000) == f2;
    assert Next(f2, c2, 4000) == f3 && Next(f3, c3, 4000) == f4;
    assert Holds([c0, c1, c2, c3], 4000, f4) by {
      hide Holds, Next;
      Grows([], c0, 4000, NO_FACTS);
      Grows([c0], c1, 4000, f1);
      Grows([c0, c1], c2, 4000, f2);
      Grows([c0, c1, c2], c3, 4000, f3);
    }
  }

  // what is known of a cut
  datatype Facts = Facts(joined: seq<Byte>, first: Option<FdSet>, sets: map<nat, FdSet>, refused: bool)

  const NO_FACTS := Facts([], None, map[], false)

  ghost predicate Holds(cut: Cut, n: nat, f: Facts) {
    && Readable(cut, n) && Joined(cut) == f.joined && FirstSet(cut) == f.first && Offered(cut) == f.sets
    && Refused(cut, n) == f.refused
  }

  function Next(f: Facts, chunk: Chunk, n: nat): Facts
    requires chunk.bytes != []
  {
    Facts(f.joined + chunk.bytes,
          if f.first.Some? then f.first else chunk.fds,
          if chunk.fds.Some? then f.sets[|f.joined| + |chunk.bytes| - 1 := chunk.fds.value] else f.sets,
          f.refused || (chunk.fds.Some? && f.first.Some? && Buffered(|f.joined|, n)))
  }

  lemma NothingRead(n: nat)
    ensures Holds([], n, NO_FACTS)
  {
  }

  lemma Grows(cut: Cut, chunk: Chunk, n: nat, f: Facts)
    requires Holds(cut, n, f) && chunk.bytes != [] && (Buffered(|f.joined|, n) ==> |chunk.bytes| <= RECV_MAX)
    ensures Holds(cut + [chunk], n, Next(f, chunk, n))
  {
    assert NoneEmpty(cut);
    hide Joined;
    hide FirstSet;
    hide Offered;
    hide Refused;
    hide Readable;
    hide Buffered;
    JoinedMore(cut, chunk);
    OfferedMore(cut, chunk);
    ReadableMore(cut, chunk, n);
    RefusedMore(cut, chunk, n);
  }
}
